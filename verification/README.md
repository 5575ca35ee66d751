# Maildesk proofs

A Dafny model of the parts of Maildesk whose correctness is hardest to see from reading one function, with proofs of
what they promise. `dafny verify dfyconfig.toml` checks everything.

## What is modelled

**Retiring and settling a build cache.** `CacheTree` is a small file system: names, inodes, link counts, allocations,
and a `Target` object that unlinks in place. `PayloadSelection` chooses a set of files closed under hard links.
`Retirement` deletes it file by file behind a journal that is written ahead; every instant at which the process may stop
is recorded and shown to be consistent. `Reconciliation` reads a journal that was cut anywhere. `ProcessTracking` follows
process generations although pids are reused, in a world where a dead generation never returns, and `Settlement` is the
observation loop that may declare a build settled. `OpenFileRecords` and `OpenFileDocuments` are the strict reader of
field-per-line open-file listings and the listings it accepts; `MountWarnings` qualifies mount warnings.

**Installing a routing policy.** `StableIds` are the row identifiers and SQL literals. `PolicyTables` gives the
projection's statements a meaning over tables with unique and foreign keys and the guard on reply bindings.
`PolicyProjection` emits the program, `PolicyOutcome` says what the tables hold after it, from any prior tables;
`PolicyProgress`, `PolicyBindings`, `PolicyDeliveries` and `PolicyHistory` say when it runs to its end, and when a
history of projections does, with mail delivered in between.

**Formats.** `CanonicalJson` (over `Ordering`); `WorkerUpload`, `UploadFraming` and `ModuleManifest` (multipart bodies,
over `Searching`); `DkimBody` and `DkimHeaders` (RFC 6376), `ConstantTime`; `Base64`, `PrivateCapture` and
`PluginModules` (RFC 4648); `RelayBound` and `RelayAddresses` (RFC 2045 sizes and relay tokens).

**Evidence.** `FleetRoutes` and `FleetReadiness` compile the readiness of a fleet twice, as a coverage boolean and as the
search for a first blocker. `CoverageEvidence` validates coverage and `CoverageBuilder` builds it.

`Results`, `Lists` and `Texts` hold what several modules share.

## Assumptions

- Nothing else touches a target while it is retired. An unlink may raise before or after its effect, at any file.
- A native process table lists only processes that ran while it was read, and an identity read tells who had the pid at
  one instant. A generation that inherited the locked descriptor holds the lease while it runs
  (`scripts/build-and-retire.py:90-111`).
- Policy projection receives routes as the router emits them: normalised texts, each route once, each operator of a
  route once. All statements of a projection read one clock.
- A domain, JSON or module digest is a parameter; only where stated must different domains have different digests.
- Strings of the formats on bytes are sequences of characters, one for each byte.

## Where the code and its documentation differ

- Relaxed body canonicalisation leaves one line end of a body of blank lines, where section 3.4.4 of RFC 6376 leaves
  nothing. `DkimBody.BlankExactly` says for which bodies.
- The builder of coverage and its validator differ when a transaction is incomplete and yet everything else is complete.
  `CoverageBuilder.BuiltValidExactly` gives the exact condition; `CoverageBuilder.CollectedIsValid` shows that the
  collector never gets there.
- A projection does not run from arbitrary tables: `PolicyProgress.ForeignDomainStops` gives tables that stop it, and
  `PolicyHistory.RunsExactlyWhen` the exact condition on tables that projections filled. An identity never leaves the
  domain it was first stored under, so a reply identity of another domain stops the projection:
  `PolicyHistory.CrossDomainStops` and `PolicyHistory.EarlierHomeStops` give inputs.
- The bytes a retirement reports are measured again at each last link, so they are the bytes promised only where those
  measurements did not drift: `Retirement.PrepareAndApply` and `Retirement.DriftShows`.

## Model

| member | source | states |
|---|---|---|
| `CacheTree.UnlinkOneMore` | scripts/build_cache_retirement.py:478-491 | Unlinking the names of a set one at a time, in any order, reaches the tree without them; an inode goes with its last link and not before. |
| `CacheTree.StillLinked` | scripts/build_cache_retirement.py:481-486 | While a selected name is still there its inode is too, with exactly one link fewer for every peer already gone, which is why every per-file link-count check succeeds. |
| `CacheTree.RetainedUnchanged` | scripts/build_cache_retirement.py:492-497 | Removing whole inodes leaves every other row, its link count included, and every other content as it was. |
| `CacheTree.Target.Unlink` | scripts/build_cache_retirement.py:399-412 | One unlink in place: the name goes, its inode loses a link, and goes with its last link; nothing else changes. |
| `PayloadSelection.SelectPayload` | scripts/build_cache_retirement.py:201-308 | The scan, hard-link pass and unit-metadata pass return exactly the specified selection, or the classifier's error. |
| `PayloadSelection.SeverGroups` | scripts/build_cache_retirement.py:289-295 | The hard-link pass keeps exactly the candidates whose inode has no retained, external or unknown peer. |
| `PayloadSelection.RetireMetadata` | scripts/build_cache_retirement.py:296-308 | The metadata pass gives the specified selection, and adds a dep-info or fingerprint file only as the sole link of a unit all of whose payloads are selected. |
| `PayloadSelection.SelectionSound` | scripts/build_cache_retirement.py:215-308 | Every selected file carries its inventory row and digest, is regular, and neither is a kept path nor lies below one; it is an eligible payload without a peer outside the selection, or the only link of a metadata file of a unit all of whose payloads are selected. |
| `PayloadSelection.SelectionComplete` | scripts/build_cache_retirement.py:215-308 | Nothing that qualifies is left behind: every payload whose inode qualifies whole is selected, and so is every sole-link metadata file of a unit all of whose payloads are. |
| `PayloadSelection.PayloadExactly` | scripts/build_cache_retirement.py:299-301 | A payload of a unit is a file right under the dependencies of its profile whose name holds a hyphen, the unit and a dot, and ends in one of the suffixes of a payload or in none. |
| `PayloadSelection.SuffixIs` | scripts/build_cache_retirement.py:299-301 | A suffix is what starts at the last dot of a name, unless nothing stands before or behind that dot. |
| `PayloadSelection.RetirableIs` | scripts/build_cache_retirement.py:298-303 | A unit retires with a payload in the inventory, and with all of them selected. |
| `PayloadSelection.UnitTableIs` | scripts/build_cache_retirement.py:287-298 | The units are those of the candidates, each listed once, and the last candidate of a unit names its control files. |
| `PayloadSelection.SelectionFails` | scripts/build_cache_retirement.py:298-308 | A selection fails only for a control file that is not in the inventory, and does so whenever its unit retires. |
| `PayloadSelection.SelectionTakesWholeInodes` | scripts/build_cache_retirement.py:289-308 | Of every inode a selection takes all links, those outside the target included, or none. |
| `PayloadSelection.SelectionStable` | scripts/build_cache_retirement.py:159-162 | A selection derived again after measured allocations drifted is the same but for the allocations. |
| `Retirement.Promise` | scripts/build_cache_retirement.py:395-396 | The promised bytes are the sum of the allocations of the selected inodes, each counted once. |
| `Retirement.Prepare` | scripts/build_cache_retirement.py:364-396 | Preparing qualifies a snapshot of the tree and promises the per-inode bytes of its selection, changing nothing. |
| `Retirement.PreparedIsApproved` | scripts/build_cache_retirement.py:469-475 | A plan just prepared is approved when it is applied, whatever allocation is measured the second time, with the same names. |
| `Retirement.ApprovedExactly` | scripts/build_cache_retirement.py:469-475 | A plan is approved exactly when the tree is the one it describes and the selection derived again has exactly its names, kinds, digests and rows, allocation aside; what is approved is that selection. |
| `Retirement.Transaction.Announce` | scripts/build_cache_retirement.py:478-488 | A selected file is announced exactly when it still has the row, but for allocation and taken links, and the digest that were reviewed; the intent precedes the unlink, and otherwise nothing changes. |
| `Retirement.Transaction.RetireOne` | scripts/build_cache_retirement.py:478-491 | One file is checked, announced, unlinked, recorded and completed, and every instant in between is an admissible stopping point. |
| `Retirement.Transaction.RetireAll` | scripts/build_cache_retirement.py:478-491 | The deletion loop removes exactly the selection unless an unlink raises, whatever the order of the files, and books each inode as measured just before its last link went. |
| `Retirement.Transaction.Settle` | scripts/build_cache_retirement.py:492-503 | The comparison of what is retained always passes, and the bytes reported sum, over the inodes gone, what each measured just before its last link went. |
| `Retirement.Transaction.Stop` | scripts/build_cache_retirement.py:504-516 | A raised error ends HELD_NO_EFFECT, EFFECT_UNCERTAIN or PARTIAL, by what was dispatched and removed, and reports the bytes booked so far. |
| `Retirement.Transaction.Apply` | scripts/build_cache_retirement.py:445-519 | Only names of the reviewed plan are ever unlinked. Where the tree or the selection derived again is not the reviewed one, apply ends HELD_NO_EFFECT with the tree untouched. Otherwise it ends COMPLETE exactly when no unlink raises, and the tree is then the original minus the selection; however it ends, every instant was an admissible stop and the bytes reported sum over the inodes gone what each measured at its last link. |
| `Retirement.PrepareAndApply` | scripts/build-and-retire.py:71-76 | Preparing and applying at once removes exactly the prepared selection and leaves everything else; on completion the bytes reported and the bytes promised count the same inodes once each, and agree where the last-link measurements did not drift from the prepared ones. |
| `Retirement.AllBooked` | scripts/build_cache_retirement.py:489-516 | Once whole inodes are gone, exactly those are booked, and as promised where their last-link measurements did not drift. |
| `Retirement.DriftShows` | scripts/build_cache_retirement.py:159-162 | Where one inode alone may have drifted, the bytes booked are the bytes promised exactly when it has not. |
| `Reconciliation.ReadEvents` | scripts/build_cache_retirement.py:526-531 | The line-by-line reading of a journal stops at a torn last line and decodes every whole one in order. |
| `Reconciliation.CutReads` | scripts/build_cache_retirement.py:526-531 | Any cut of a journal, even inside a record, reads as a prefix of its events: the whole lines are records and the rest holds no newline; it is marked torn exactly when it does not end behind one. |
| `Reconciliation.StrangeLine` | scripts/build_cache_retirement.py:526-531 | A whole line that is no record is refused wherever it stands. |
| `Reconciliation.Reconcile` | scripts/build_cache_retirement.py:522-547 | A journal is read exactly when its whole lines are records and the first starts the plan. Every selected name is then absent, or still the regular file of the plan by inode and content, or on hold, whatever became of the tree. |
| `Reconciliation.ReconcileAfterStop` | scripts/build_cache_retirement.py:522-547 | For every stopping point of apply and every cut of its journal behind the first record, reconciliation succeeds and marks exactly the unlinked names ABSENT and the rest ORIGINAL_CONTENT. |
| `ProcessTracking.Closure` | scripts/build_settlement.py:126-132 | The descendant loop ends, with the least set over the seeds that is closed under children. |
| `ProcessTracking.ClosureIsPopulation` | scripts/build_settlement.py:126-132 | The least closed set over the seeds holds exactly the processes from which parent links lead to one of the session or to a known generation. |
| `ProcessTracking.Tracker.Register` | scripts/build_settlement.py:107-114 | Exactly the expected generation is registered, unless it would replace a live one or the root; the tracker stays sound, and nothing changes when it is refused. |
| `ProcessTracking.Tracker.Note` | scripts/build_settlement.py:133-138 | Every scanned row is validated before it is noted in the history. |
| `ProcessTracking.Tracker.Missing` | scripts/build_settlement.py:139-148 | A missing generation is called ended only on an independent identity read that does not show it. |
| `ProcessTracking.Tracker.Scan` | scripts/build_settlement.py:124-151 | After a scan the live rows are exactly the rows of the table from which parent links lead to the session or to a known generation: every row of the session, every known pid with its birth, every child of these. History stays the disjoint union of ended and live; a refusal has one of the stated reasons. |
| `ProcessTracking.ProbeProvesEnd` | scripts/build_settlement.py:139-148 | An identity read that does not show a generation proves it dead, although pids are reused. |
| `ProcessTracking.Joins` | scripts/build_settlement.py:116-122 | A validated row that was seen running is none of the ended generations, agrees with the live generation of its pid, and never rebinds the root. |
| `ProcessTracking.RegisteredSound` | scripts/build_settlement.py:107-114 | Registration keeps: history is ended plus live, disjoint; every ended generation is really dead; the root is never rebound. |
| `ProcessTracking.ScannedSound` | scripts/build_settlement.py:124-151 | A scan keeps the same invariant. |
| `Settlement.AppendInterleaves` | scripts/build_settlement.py:184-187 | Appending a chunk to the combined log and to its own stream's log keeps the first an exact interleaving of the two. |
| `Settlement.Observer.Drain` | scripts/build_settlement.py:183-190 | Each stream's log grows by exactly the data read from it while it was open, and the combined log stays an exact interleaving of the two. |
| `Settlement.Observer.Acknowledge` | scripts/build_settlement.py:254-278 | A launch is acknowledged exactly when one descriptor is watched, the expected generation registers, and the exact reservation is canonical, the same and held. |
| `Settlement.Observer.Lease` | scripts/build_settlement.py:279-288 | Nothing is released before a reservation was opened, and a drifted namespace never reads as released. |
| `Settlement.Observer.ScanRound` | scripts/build_settlement.py:192-202 | A round that ends without error pairs what one scan saw live with what the lease showed in the same round. |
| `Settlement.Observer.Turn` | scripts/build_settlement.py:182-212 | Every turn keeps the tracker sound while no error is recorded, never drops an error, scans after 50 milliseconds, and records a missed deadline. |
| `Settlement.Observer.Observe` | scripts/build_settlement.py:164-222 | The logs are exactly the data of the rounds used. SETTLED needs an acknowledgement that passed every check, exit 0, both stream ends and no error ever, and one and the same round whose table held no row of the session and whose lease was released; then every generation in the history is dead. |
| `Settlement.BoundDead` | scripts/build-and-retire.py:90-111 | A registered generation that inherited the locked descriptor is dead once the lease is seen free. |
| `OpenFileRecords.Reader.Line` | scripts/build_readers.py:139-161 | One line of the listing advances the reader exactly as specified, or is refused. |
| `OpenFileRecords.Reader.Finish` | scripts/build_readers.py:95-137 | Closing a file record checks identity, duplicates and numeric descriptors before it is kept. |
| `OpenFileRecords.Reader.Parse` | scripts/build_readers.py:88-165 | The reader's fields, updated line by line, give the specified records or the specified refusal. |
| `OpenFileDocuments.ReaderInvertsPrinter` | scripts/build_readers.py:88-165 | Every well-formed listing, printed, is accepted and read as its records. |
| `OpenFileDocuments.AcceptedIsListing` | scripts/build_readers.py:88-165 | Whatever is accepted is the printing of a well-formed listing and is read as that listing's records. |
| `OpenFileDocuments.AcceptsExactlyListings` | scripts/build_readers.py:88-165 | The reader accepts exactly the printings of well-formed listings: non-empty blocks, unique pids, unique numeric descriptors per process. |
| `OpenFileDocuments.RecordsAdmissible` | scripts/build_readers.py:95-118 | Every accepted filesystem row has a complete identity whose device is not zero. |
| `MountWarnings.Qualify` | scripts/build_readers.py:49-80 | Warnings are accepted exactly when the text is a concatenation of warnings with distinct mounts, each explained by the mount tables, and the result names them in order. |
| `MountWarnings.MatchesPrinted` | scripts/build_readers.py:52-63 | A printed warning is matched, whatever follows it. |
| `MountWarnings.MatchedIsPrinted` | scripts/build_readers.py:52-63 | What is matched is a printed warning and its remainder. |
| `MountWarnings.NoExplanation` | scripts/build_readers.py:56-80 | Where the loop gives up, no list of independent warnings explains the text. |
| `StableIds.Utf8Reads` | scripts/sync-route-policy.ts:214-216 | A character is told from its UTF-8 bytes, and their number from the first of them. |
| `StableIds.EncodesExactly` | scripts/sync-route-policy.ts:214-216 | Letters, digits and nine marks stay as they are; any other character is one upper-case triplet for each byte of its UTF-8 form. |
| `StableIds.EncodeInjective` | scripts/sync-route-policy.ts:214-216 | Percent-encoding is injective. |
| `StableIds.EncodeNoColon` | scripts/sync-route-policy.ts:214-216 | Percent-encoding emits no colon. |
| `StableIds.StableIdInjective` | scripts/sync-route-policy.ts:214-220 | Two identifiers are equal exactly when their kinds and their normalised parts are. |
| `Texts.NormalExactly` | scripts/sync-route-policy.ts:214-220 | A normal spelling is trimmed and in lower case, and nothing else of it changes. |
| `StableIds.QuoteReads` | scripts/sync-route-policy.ts:222-224 | A quoted value reads back as itself and ends where it was meant to, whatever statement follows. |
| `PolicyTables.ExecSound` | migrations/0001_maildesk_core.sql:7-36 | A statement that succeeds keeps every reference of all the tables whole; deletes cascade. |
| `PolicyTables.ExecRouteRefs` | migrations/0006_active_policy_revision.sql:24-28 | A route keeps naming a domain, a default identity and a policy revision that exist. |
| `PolicyTables.ExecHealthRefs` | migrations/0004_inbox_reply_relay.sql:94-112 | A health row keeps naming a route and a revision that exist. |
| `PolicyTables.ExecReplyRefs` | migrations/0013_reply_dispatch_journal.sql:4-12 | A reply binding keeps naming a membership, an identity and a revision that exist; it goes with its membership. |
| `PolicyTables.RunSound` | scripts/sync-route-policy.ts:108-164 | At every prefix of every program, from any referentially whole tables, no reference dangles. |
| `PolicyTables.RunUnique` | migrations/0001_maildesk_core.sql:1-36 | At every prefix of every program no two revisions share an object, no two identities an address, no two routes a place, no two domains or operators a name. |
| `PolicyTables.BindsOnce` | migrations/0013_reply_dispatch_journal.sql:4-27 | A binding goes in exactly where the guard lets it, behind its membership and under a known revision, and never over another. |
| `PolicyTables.BeforeAtExactly` | migrations/0013_reply_dispatch_journal.sql:13-27 | The name that the guard compares is what stands before the first at sign. |
| `PolicyProjection.ProjectRoute` | scripts/sync-route-policy.ts:88-106 | A route that is no sink needs an operator; every column is the one given, and its first status follows from its kind and provider. |
| `PolicyProjection.IdsAre` | scripts/sync-route-policy.ts:214-220 | Each identifier is the word for its kind and the encoded normal spellings it is made of, in their order. |
| `PolicyProjection.ProjectionSql` | scripts/sync-route-policy.ts:108-164 | The nested loops emit exactly the projection's program, or fail exactly when some route with reply identities of its operators does not list each of these operators once and no other. |
| `PolicyOutcome.BlockEffect` | scripts/sync-route-policy.ts:120-142 | The statements of one route, if they succeed, set its domain, identity, row, members and health and clear its bindings, and touch nothing else. |
| `PolicyOutcome.BlocksEffect` | scripts/sync-route-policy.ts:120-142 | Over all routes: each row as projected, exactly its operators, identities by use, bindings cleared, everything else unchanged. |
| `PolicyOutcome.RepliesEffect` | scripts/sync-route-policy.ts:146-156 | Each operator of each route is bound, and no other binding of a route appears. |
| `PolicyOutcome.ClosingEffect` | scripts/sync-route-policy.ts:157-162 | The closing statements supersede every other active revision, activate the policy's and publish it. |
| `PolicyOutcome.ProjectionOutcome` | scripts/sync-route-policy.ts:108-164 | From any prior tables, a projection that runs to its end leaves exactly the projected routes enabled with exactly their operators, each bound to its own reply address in personal_first where the route names such addresses and to the route's in role_first where it does not; identity kinds by use, one activated and published revision, proof kept only under the same revision and provider, and everything else untouched. |
| `PolicyProgress.SafePrefix` | scripts/sync-route-policy.ts:108-164 | A safe program runs at every prefix, and each statement finds there the rows it names. |
| `PolicyProgress.ForeignDomainStops` | scripts/sync-route-policy.ts:127-129 | Where a domain is stored under another identifier the ignored insert leaves the new route without its domain, and the program stops. |
| `PolicyBindings.GuardedExactly` | migrations/0013_reply_dispatch_journal.sql:13-27 | Once the routes are in, the guard lets a binding pass exactly when its identity is at home in the route's domain and, under personal_first, is the reply identity of a personal route of that domain which the operator serves under the same local part. |
| `PolicyBindings.BindingsAddressed` | scripts/sync-route-policy.ts:144-156 | Where a projection runs, the identity each operator is bound to is stored under the address that operator replies from. |
| `PolicyBindings.RepliesGuarded` | migrations/0013_reply_dispatch_journal.sql:13-27 | Where all bindings go in, each of them passes the guard on the tables before the first. |
| `PolicyHistory.ProjectionProgress` | scripts/sync-route-policy.ts:108-164 | On tables whose identifiers follow from what they identify, a projection whose bindings pass the guard never stops, every row a statement names exists at that prefix, and the tables stay so. |
| `PolicyHistory.RunsExactlyWhen` | scripts/sync-route-policy.ts:144-156 | On such tables a projection runs to its end exactly when every identity it binds is stored, or else first used, in the route's own domain, and personal_first bindings name the operator's own. |
| `PolicyDeliveries.DeliveryTame` | workers/mail-router/src/inbound-repository.ts:353-381 | On tables whose identifiers follow from what they identify, what a delivery writes is never refused, finds every row it names, and keeps the tables so after each statement. |
| `PolicyDeliveries.DeliveryKeeps` | workers/mail-router/src/inbound-repository.ts:353-381 | However many statements of a delivery are written, it gives its identity a home where it had none, changes no other identity and no revision. |
| `PolicyHistory.HomesAfter` | scripts/sync-route-policy.ts:128 | A projection or a delivery leaves every identity at home where the tables had it, or else in the domain of its first user; nothing moves it later. |
| `PolicyHistory.EveryHistory` | scripts/sync-route-policy.ts:108-164 | A history of projections, with deliveries between them that write any number of their statements, runs to its end exactly when each binding in it is at home in that sense, over the whole history so far; the policy installed last is then the active one, and in force where the history ends with it. |
| `PolicyHistory.EveryHistoryFromEmpty` | scripts/sync-route-policy.ts:108-164 | From empty tables every history of projections and deliveries in which no identity serves two domains runs to its end, repetitions included. |
| `PolicyHistory.CrossDomainStops` | migrations/0013_reply_dispatch_journal.sql:20 | Two domains whose routes reply from one identity: the first alone installs, both together stop. |
| `PolicyHistory.EarlierHomeStops` | scripts/sync-route-policy.ts:127-128 | A route of another domain that binds nobody, projected or delivered to earlier, takes the identity's home, and a later projection stops. |
| `PolicyHistory.EarlierHomes` | workers/mail-router/src/inbound-repository.ts:367-370 | A projected sink and the first two statements of a delivery are such earlier steps. |
| `CanonicalJson.EscapeReads` | scripts/operation-context.ts:44-49 | An escaped string, lone surrogates and control characters included, reads back as its code units. |
| `CanonicalJson.PrintPrefix` | scripts/operation-context.ts:44-49 | Printed JSON is prefix-free: a value is told from any other by its own text. |
| `CanonicalJson.CanonIsPrint` | scripts/compile-fleet-readiness.ts:1112-1117 | Sorting the keys of every object while printing gives the text of the value with its keys in order at every depth. |
| `CanonicalJson.CanonicalExactly` | scripts/operation-context.ts:44-49 | Two values have one canonical text exactly when they are equal up to the order of keys. |
| `Ordering.SortIgnoresOrder` | scripts/compile-fleet-readiness.ts:231-239 | Records with distinct keys sort alike whatever order they come in. |
| `Searching.NoEarlyOverlap` | scripts/worker-upload-manifest.ts:20-36 | A delimiter whose first character does not come back in it is never found early by overlapping the content. |
| `ModuleManifest.Admit` | scripts/worker-module-proof.ts:48-62 | The loop accepts exactly admissible modules with distinct names and a total within the limit. |
| `ModuleManifest.AdmissibleExactly` | scripts/worker-module-proof.ts:48-58 | A module is admissible exactly when its name is proper segments joined by slashes, perhaps behind a dot and a slash, its type printable and its digest one of SHA-256, within the limits. |
| `Texts.HexTextExactly` | scripts/worker-module-proof.ts:4 | A digest is so many digits and letters from a to f. |
| `ModuleManifest.CanonicalManifest` | scripts/worker-module-proof.ts:45-66 | A manifest is accepted exactly when it is acceptable without regard to order, and lists its modules by name. |
| `ModuleManifest.CanonicalHolds` | scripts/worker-module-proof.ts:62-66 | An accepted manifest holds exactly the modules given, in ascending order of distinct names. |
| `ModuleManifest.OrderIrrelevant` | scripts/worker-module-proof.ts:45-66 | The order in which modules are listed changes neither acceptance nor result. |
| `ModuleManifest.QualifyWorkerModules` | scripts/worker-module-proof.ts:68-94 | A proof is given exactly when the provider reports the modules of the upload, in any order, with their digest, count and total. |
| `WorkerUpload.ReadParts` | scripts/worker-upload-manifest.ts:18-52 | The loop over the parts ends and computes the specified reading of the body. |
| `WorkerUpload.ParseWorkerUpload` | scripts/worker-upload-manifest.ts:9-59 | The upload parser computes the specified result, its refusals included. |
| `UploadFraming.HeadersExactly` | scripts/worker-upload-manifest.ts:26-35 | Header text is read exactly when it is one disposition line and at most one type line, in either order and any capitalisation, and as the name, file name and type they give. |
| `UploadFraming.PartsRead` | scripts/worker-upload-manifest.ts:18-52 | Reading printed parts gives what the parts come to and ends behind the last of them. |
| `UploadFraming.UploadReadsBack` | scripts/worker-upload-manifest.ts:9-59 | For any legal boundary and any parts whose contents do not contain their delimiter, the printed body reads back as those parts, errors for illegal parts included. |
| `UploadFraming.UploadKeepsModules` | scripts/worker-upload-manifest.ts:9-59 | A printed upload is accepted exactly when it fits the limits, every part is typed as it must be, exactly one is metadata that declares a main module, and its modules make a manifest; it then reads back as exactly those modules in order, source maps dropped and flagged, and static assets as declared. |
| `UploadFraming.AcceptsExactly` | scripts/worker-upload-manifest.ts:9-59 | Every body: it is accepted exactly when it is a boundary line, legible parts without delimiters in them that can be uploaded, a closing mark and at most one line end, and is read as what its parts hold. |
| `FleetRoutes.CompiledCell` | scripts/compile-fleet-readiness.ts:503-642 | A plane is proven exactly when its receipt was observed, succeeded, is fresh and fits route, binding and thread. |
| `FleetRoutes.PlaneExactly` | scripts/compile-fleet-readiness.ts:503-642 | Each state of a plane from receipt, frame and clock: missing, proven, failed, stale, mismatched and not applicable, each exactly when. |
| `FleetRoutes.PlaneReason` | scripts/compile-fleet-readiness.ts:503-642 | A plane that is not good gives the reason that its receipt and the frame determine. |
| `FleetRoutes.PlaneColumns` | scripts/compile-fleet-readiness.ts:503-642 | What a plane tells of its receipt: source, time, evidence and recency. |
| `FleetRoutes.ApplyGoldenThreadChronology` | scripts/compile-fleet-readiness.ts:644-667 | The chronology rewrites in place exactly the golden planes observed before an earlier one. |
| `FleetRoutes.RewrittenExactly` | scripts/compile-fleet-readiness.ts:644-667 | A plane is rewritten exactly when it was observed before an earlier golden one. |
| `FleetRoutes.MismatchIffUnsorted` | scripts/compile-fleet-readiness.ts:644-667 | A chronology mismatch is reported exactly when the supplied times are out of order. |
| `FleetRoutes.ProvenInOrder` | scripts/compile-fleet-readiness.ts:644-667 | The golden planes left proven have non-decreasing observation times. |
| `FleetRoutes.RowIsDecided` | scripts/compile-fleet-readiness.ts:364-383 | A route is ready exactly when nothing blocks it, its blocker is the first in the order of the planes with its reason, and a killed route is always blocked, also after the chronology. |
| `FleetRoutes.KilledExactly` | scripts/compile-fleet-readiness.ts:364-383 | A route is killed exactly when a receipt that fits route, thread and binding failed by exposing a private identity or showing a wrong public one. |
| `FleetRoutes.CoherentExactly` | scripts/compile-fleet-readiness.ts:348-368 | The receipts of a route cohere exactly when each is addressed to it, under its contract or the binding, and the golden planes were observed in their order. |
| `FleetRoutes.RowColumns` | scripts/compile-fleet-readiness.ts:348-384 | The columns of a row that say which route it is and what its operational status reads. |
| `FleetReadiness.CompileRoute` | scripts/compile-fleet-readiness.ts:348-384 | Compiling a route through the rewritten planes gives the specified row and coherence. |
| `FleetReadiness.CompileRoutes` | scripts/compile-fleet-readiness.ts:332-385 | The loop gives the sorted rows of the enrolled routes and whether all receipts cohere. |
| `FleetReadiness.CountRoutes` | scripts/compile-fleet-readiness.ts:387-392 | The table counts the required routes of every domain. |
| `FleetReadiness.Validate` | scripts/compile-fleet-readiness.ts:746-840 | Exactly the inputs with distinct, consistent domains, routes and evidence are admitted, each domain's columns as its decision demands, and the declared enrollment counts those of the domains. |
| `FleetReadiness.ValidExactly` | scripts/compile-fleet-readiness.ts:746-840 | Nothing is listed twice, there is a domain and a route, and every domain, route, piece of evidence and declared count fits. |
| `FleetReadiness.DomainFitsExactly` | scripts/compile-fleet-readiness.ts:842-903 | Column by column, which decisions allow or demand what of a domain. |
| `FleetReadiness.FitsExactly` | scripts/compile-fleet-readiness.ts:959-1077 | A route belongs to an enrolled domain and has a contract exactly as a sink; evidence belongs to a route and its domain, and waives only golden planes of sinks. |
| `FleetReadiness.DeclaredExactly` | scripts/compile-fleet-readiness.ts:815-840 | What the enrollment declares is how many domains there are of each decision. |
| `FleetReadiness.CompileFleetReadiness` | scripts/compile-fleet-readiness.ts:284-501 | An admitted input gives the specified report, any other is refused. |
| `FleetReadiness.AnswersAgree` | scripts/compile-fleet-readiness.ts:413-448 | Full coverage is proven exactly when the staged search for a first blocker finds none. |
| `FleetReadiness.FullCoverageExactly` | scripts/compile-fleet-readiness.ts:413-448 | Full coverage is proven exactly when the whole policy was looked at, every domain is decided and every enrolled one has a route, the inventory is attested under one binding, and some evidence settles all eight planes of every route in order. |
| `FleetReadiness.CoverageFlags` | scripts/compile-fleet-readiness.ts:413-448 | Each flag of the coverage by itself, from the input. |
| `FleetReadiness.FirstIsLeast` | scripts/compile-fleet-readiness.ts:730-744 | The route blocker reported is least by plane and then by route, and is some route's own blocker. |
| `FleetReadiness.EnrollmentStage` | scripts/compile-fleet-readiness.ts:681-701 | The first stage of the search: the enrollment binding, then the inventory, then the first undecided domain by digest. |
| `FleetReadiness.ConfigurationStage` | scripts/compile-fleet-readiness.ts:703-728 | The second stage: canary scope, the attestations in their order, then the first enrolled domain without routes. |
| `FleetReadiness.ReportIgnoresOrder` | scripts/compile-fleet-readiness.ts:297-411 | The report on an admitted input is unchanged by any reordering of domains, routes and evidence. |
| `FleetReadiness.CountsAddUp` | scripts/compile-fleet-readiness.ts:473-496 | Ready, blocked and killed routes add up to all routes, and the decisions to all domains. |
| `FleetReadiness.ReportLists` | scripts/compile-fleet-readiness.ts:386-411 | Every domain and every route is listed once, in the order of their digests, with the number of its routes. |
| `FleetReadiness.CountsExactly` | scripts/compile-fleet-readiness.ts:473-496 | Every count of the report is the number of its rows that it names. |
| `FleetReadiness.PlanesCounted` | scripts/compile-fleet-readiness.ts:473-484 | Each count of planes is the number of routes it is about. |
| `FleetReadiness.CoverageCounts` | scripts/compile-fleet-readiness.ts:473-484 | Where full coverage is proven the plane counts say so: all routes configured and active, none failed or stale, and exactly the routes that carry replies proven to. |
| `FleetRoutes.WaivedOnlyInSinks` | scripts/compile-fleet-readiness.ts:556-575 | Only the golden planes of a sink are ever left as not applicable. |
| `DkimBody.CanonicalizeBody` | workers/shared/dkim.ts:239-246 | Popping empty lines and joining gives the canonical body. |
| `DkimBody.JoinLines` | workers/shared/dkim.ts:239-246 | Lines that are joined are the lines that are read back. |
| `DkimBody.CanonicalIdempotent` | workers/shared/dkim.ts:239-246 | Canonicalising again, with the same mode or the simple one, changes nothing. |
| `DkimBody.RelaxedAfterSimple` | workers/shared/dkim.ts:239-246 | Relaxing after simplifying is relaxing. |
| `DkimBody.SimpleExactly` | workers/shared/dkim.ts:239-246 | Two bodies have one simple form exactly when their lines agree, empty lines at the end aside. |
| `DkimBody.RelaxedExactly` | workers/shared/dkim.ts:239-246 | Two bodies have one relaxed form exactly when, line by line, they differ only in runs of whitespace and whitespace at the end, lines at the end that are blank aside. |
| `DkimBody.BlankExactly` | workers/shared/dkim.ts:244-245 | The relaxed form is one line end exactly for bodies of blank lines, where section 3.4.4 of RFC 6376 leaves nothing. |
| `DkimBody.BodyExample` | workers/shared/dkim.ts:239-246 | The example of section 3.4.5 of RFC 6376, in both modes. |
| `DkimHeaders.ParseRawMessage` | workers/shared/dkim.ts:195-216 | Reading a message loses nothing: fields, blank line and body are the message with normalised line ends. It is refused exactly for one of the stated reasons. |
| `DkimHeaders.WellNamedExactly` | workers/shared/dkim.ts:206-208 | A field is well named exactly when printable characters other than quote and colon stand before its first colon. |
| `DkimHeaders.ReadField` | workers/shared/dkim.ts:206-214 | A field that is read keeps its bytes, its lower-case name and the words of its value, unfolded and bare. |
| `DkimHeaders.CanonicalizeSignedHeaders` | workers/shared/dkim.ts:248-272 | The loop over the listed names gives the signed bytes. |
| `DkimHeaders.FieldExactly` | workers/shared/dkim.ts:274-283 | Two fields have one relaxed form exactly when their names agree up to case and outer whitespace and their unfolded values agree up to runs of whitespace and outer whitespace; the simple form is the field itself. |
| `DkimHeaders.RelaxedIdempotent` | workers/shared/dkim.ts:274-283 | The relaxed form of a field, canonicalised again, is itself. |
| `DkimHeaders.FirstExample` | workers/shared/dkim.ts:274-283 | The first field of the example of section 3.4.5 of RFC 6376. |
| `DkimHeaders.SecondExample` | workers/shared/dkim.ts:274-283 | The second field of that example, folded and spaced. |
| `DkimHeaders.SignedExample` | workers/shared/dkim.ts:248-272 | Three fields, two of one name that is listed three times: the last of them first, the other after the third field, then the signature. |
| `DkimHeaders.TakenFromTheBottom` | workers/shared/dkim.ts:254-266 | Each listed name contributes as many fields as it is listed and exist, distinct and from the bottom up. |
| `DkimHeaders.UnlistedIgnored` | workers/shared/dkim.ts:256-266 | A field that is not listed can be added anywhere without touching the signed bytes. |
| `DkimHeaders.OverlistedDetects` | workers/shared/dkim.ts:261-265 | If a name is listed more often than it occurs, one more field of that name anywhere changes the signed bytes. |
| `ConstantTime.ConstantTimeEqual` | workers/shared/dkim.ts:302-309 | Visiting every position decides equality, lengths included. |
| `Base64.EncodeBytes` | scripts/plugin-private-capture-codec.ts:48-52 | Gathering stretches of 8192 bytes encodes the whole. |
| `Base64.EncodeReads` | scripts/plugin-private-capture-codec.ts:38-52 | An encoding has four characters for every three bytes begun, its padding at the end, and decodes to its bytes. |
| `Base64.DecodesExactly` | scripts/plugin-private-capture-codec.ts:38-46 | A string is decoded exactly when it is the encoding of bytes within the maximum, and to those bytes. |
| `Base64.EncodeInjective` | scripts/plugin-private-capture-codec.ts:48-52 | Different bytes have different encodings. |
| `PrivateCapture.AssembleChunks` | scripts/plugin-private-capture.ts:74-101 | The checks and the loop over the chunks compute the specified result. |
| `PrivateCapture.SizesForceTotal` | scripts/plugin-private-capture.ts:88-97 | The sizes checked for each chunk alone force the length of the whole. |
| `PrivateCapture.AssemblesExactly` | scripts/plugin-private-capture.ts:74-101 | Chunks are assembled exactly when they are all the chunks, in order, of bytes within the limit, and to those bytes. |
| `PrivateCapture.SealedAssemble` | scripts/plugin-private-capture-codec.ts:58-70 | Sealing every chunk and assembling them gives back the bytes. |
| `PluginModules.SizeFormula` | scripts/plugin-module-digests.ts:34-36 | The size computed from the length of an encoding is the number of bytes it encodes. |
| `PluginModules.CanonicalExactly` | scripts/plugin-module-digests.ts:37-40 | The checks on an encoding accept exactly the encodings. |
| `PluginModules.ReadModules` | scripts/plugin-module-digests.ts:21-48 | The loop accepts exactly canonical modules with distinct names whose running total of decoded bytes stays within the limit. |
| `PluginModules.NamedExactly` | scripts/plugin-module-digests.ts:58-61 | A name is safe exactly when it is segments of letters, digits and four marks, none of dots alone, joined by slashes, perhaps behind a dot and a slash. |
| `PluginModules.TypeExactly` | scripts/plugin-module-digests.ts:30 | A type is two non-empty texts of lower-case letters, digits and three marks around a slash. |
| `PluginModules.ProjectModules` | scripts/plugin-module-digests.ts:8-56 | A response is projected exactly when it is acceptable, to the digests of its modules by name. |
| `PluginModules.AcceptableExactly` | scripts/plugin-module-digests.ts:8-56 | A response is acceptable exactly within the stated limits, with distinct canonical modules and a script of the entry point's name among them. |
| `RelayBound.QuotedBound` | workers/shared/inbox-relay.ts:206-213 | Quoted-printable text with soft breaks and CRLF line ends is at most four times as long as its bytes, whichever further bytes are escaped. |
| `RelayBound.QuotedLines` | workers/shared/inbox-relay.ts:206-213 | No line of it is longer than 76 characters. |
| `RelayBound.QuotedReads` | workers/shared/inbox-relay.ts:206-213 | It stands for the bytes it was made of. |
| `RelayBound.AttachmentExactly` | workers/shared/inbox-relay.ts:217-221 | The size computed for an attachment is exactly that of its base64 lines. |
| `RelayBound.EncodedMessageUpperBound` | workers/shared/inbox-relay.ts:197-228 | The two loops sum the bound over headers and attachments. |
| `RelayBound.SentFits` | workers/shared/inbox-relay.ts:206-210 | In quoted-printable or in lines of base64, a text fits four times its bytes exactly unless it is a single byte in base64, which takes two characters more. |
| `RelayBound.AdmittedFits` | workers/shared/inbox-relay.ts:230-237 | An admitted message fits the limit however each text is encoded, with the reserved overhead to spare but for two characters for every single-byte text in base64; up to 8189 headers those come out of the overhead. |
| `RelayBound.AssertWithinRelayLimit` | workers/shared/inbox-relay.ts:230-237 | A message is admitted exactly when its bound is within the limit, and then fits it in every encoding. |
| `RelayAddresses.NormalizedOnce` | workers/shared/inbox-relay.ts:283-298 | Normalising a mailbox again changes nothing. |
| `RelayAddresses.MailboxExactly` | workers/shared/inbox-relay.ts:283-298 | A mailbox is printable text and an at sign in front of labels joined by dots, within the limits. |
| `RelayAddresses.TokenExactly` | workers/shared/inbox-relay.ts:259-267 | A recipient carries a token exactly when its normal spelling is the relay address of that token. |
| `RelayAddresses.AddressReadsBack` | workers/shared/inbox-relay.ts:254-267 | However a relay address comes back, in whatever case and with whatever space around it, it gives back its token. |
| `CoverageEvidence.CapabilitiesPartitioned` | scripts/live-evidence-coverage.ts:121-140 | A valid coverage puts every required capability into exactly one of successful, failed and missing. |
| `CoverageEvidence.ValidExactly` | scripts/live-evidence-coverage.ts:93-172 | A coverage is valid exactly when its scope, its capabilities, its surfaces, its blockers and its flags hold together, each said in plain membership. |
| `CoverageEvidence.ContinuityExactly` | scripts/live-evidence-coverage.ts:193-210 | The retained application is the one read back, the parent of the policy and its application, and the retained policy the one read back; no identifier is empty or has white space around it. |
| `CoverageEvidence.ShasExactly` | scripts/live-evidence-coverage.ts:78-80 | The digest of a domain is that of its trimmed and lower-case spelling. |
| `CoverageEvidence.AcceptanceObservesAll` | scripts/live-evidence-coverage.ts:148-172 | Completed acceptance has observed exactly the expected domains and read every required capability and surface. |
| `CoverageEvidence.AuthorityObservesAll` | scripts/live-evidence-coverage.ts:174-191 | A readback that authorises readiness has observed exactly the expected domains. |
| `CoverageEvidence.AuthorityExactly` | scripts/live-evidence-coverage.ts:174-191 | A readback authorises readiness exactly when it was required, attempted and completed and its valid coverage completes acceptance. |
| `CoverageBuilder.RequiredFit` | scripts/cfctl-v2-command-contract.ts:254-287 | Required capabilities are named once each, and dark acceptance requires its own. |
| `CoverageBuilder.RequiredExactly` | scripts/cfctl-v2-command-contract.ts:254-287 | Which capabilities each option and profile require, by name. |
| `CoverageBuilder.RequiredInOrder` | scripts/cfctl-v2-command-contract.ts:254-287 | Required capabilities are listed in the order of their names, the modules of the Worker last. |
| `CoverageBuilder.BlockersExactly` | scripts/collect-live-evidence.ts:867-888 | Which blockers a coverage carries: the partial scope, the inventory profile, unread dark capabilities, missing surfaces and failed reads, and no other. |
| `CoverageBuilder.BuiltColumns` | scripts/collect-live-evidence.ts:820-923 | Each list and flag of a built coverage from what was read and observed. |
| `CoverageBuilder.BuiltValidExactly` | scripts/collect-live-evidence.ts:820-923 | A readback builds a valid coverage exactly when it observed only selected domains, reported no counting surface twice, and, if its transaction broke off, left a selected domain unobserved or a required capability unread or failed. |
| `CoverageBuilder.BrokenOffAtTheEnd` | scripts/collect-live-evidence.ts:851-858 | One desired domain, everything read and observed, and the transaction broken off: the coverage built is invalid, and valid had it completed. |
| `CoverageBuilder.CollectedIsValid` | scripts/collect-live-evidence.ts:386-454 | Every coverage the collector builds for a selection that is not empty is valid. |

## Left out

- Directories, modes of directories, and the walk to a file's parent during unlink: names stand for files only.
- Format sniffing, code signatures, Cargo layout and fingerprint globbing of the payload selection: one classifier
  parameter says what they found.
- Preservation provider, exclusion pins, git state and lock checks of preparing and applying: without interference they
  agree with the plan, so they appear only as the absence of interference.
- Reconciliation.Reconcile: does not resolve the target path again, because no path leaves the modelled tree.
- Reconciliation.ReadEvents: lines end with a newline only, because JSON text in ASCII holds no other line boundary.
- OpenFileRecords.Reader.Line: the words of a denial are looked for with ASCII letter case folded; the few characters
  outside ASCII that a case-insensitive pattern also matches are not.
- PolicyHistory.EveryHistory: deliveries come one after the other, and between projections, not in the middle of another.
- OpenFileRecords.Reader.Parse: starts from the lines of the output, because splitting them is a library primitive.
- Process spawning, libproc, flock, fsync, select and signals: the rounds of the observer say what they delivered.
- Settlement.Observer.Observe: a run may end undecided with the rounds it was given, because the loop has no bound of its
  own while the child runs.
- MountWarnings.QualifyWarnings: normality of mount paths and overlap with the target are given, because they are path
  arithmetic of the platform.
- PolicyTables.Exec: the triggers of migrations 0015 and 0017 are left out, because they only count generations and drop
  cached status rows that are no columns here; of the CHECK constraints, those on the length of a digest are kept and the
  rest are types.
- CacheTree.Inventory: one inventory measures all links of an inode alike; every unlink measures afresh.
- Projecting the policy itself (the router written in Rust) and comparing it with the desired state: its routes are input.
- StableIds.StableIdInjective: trimming and lower-casing cover ASCII only; other white space and case are not modelled.
- CanonicalJson.CanonicalExactly: a number is the text that JSON writes for it, because shortest decimal printing of
  floating point is a language primitive; values that are not JSON are out.
- WorkerUpload.ParseWorkerUpload: header text is compared byte by byte without UTF-8 decoding, and the metadata JSON is a
  parameter.
- ModuleManifest.QualifyWorkerModules: the envelope of the provider's answer is one condition, and the digest of a
  manifest is a parameter.
- FleetReadiness.Validate: shapes, digest syntax and timestamps of the raw JSON are typed here instead of checked.
- FleetRoutes.RowIsDecided: the operational status is read by a parameter, because its projection belongs to the router's
  status reader.
- DkimHeaders.CanonicalizeSignedHeaders: the signature field arrives with its own value already removed.
- Tag parsing, key lookup, caching, RSA and the deadline of DKIM verification.
- Encryption, custody checks of files and directories, and the JSON around each private chunk.
- RelayBound.AdmittedFits: leaves out the boilerplate of MIME headers and encoded words, because it belongs to the
  provider; 16 KiB and 1 KiB for each attachment are reserved for it. Attachments are in base64.
- MIME decoding, reply rendering, HTML banners, configuration checkers, command lines, Cloudflare calls and the web
  interface: flat field checks or input and output.
