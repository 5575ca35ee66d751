/** Journaled deletion of a selection, the stopping points of that deletion, and what reconciliation reads back. */
module Retirement {
  import opened Results
  import opened CacheTree
  import Lists
  import opened PayloadSelection

  datatype Status = HeldNoEffect | EffectUncertain | Partial | Complete

  datatype Event =
    | Started(planSha: string, authorization: string)
    | UnlinkIntent(path: Name, sha: Content, blocks: nat, nlink: nat)
    | UnlinkComplete(path: Name)
    | Verified
    | Stopped(status: Status, error: string)

  /** A reviewed plan: the inventory, the contents and the selection that were qualified together. */
  datatype Plan = Plan(files: map<Name, Row>, contents: map<Name, Content>, selected: Selection)

  /** How an unlink call can raise: with the entry still there, or after it is gone when its directory cannot be
      synced. */
  datatype Fault = BeforeEffect | AfterEffect

  /** The faults of a run: at which unlink, counted from 0, and how. */
  type Faults = map<nat, Fault>

  ghost predicate FaultWithin(faults: Faults, n: nat) {
    exists k :: k in faults && k < n
  }

  /** What a stop at one instant leaves behind: the tree and journal on disk, and the list kept in memory. */
  datatype Snapshot = Snapshot(tree: Tree, journal: seq<Event>, removed: seq<Name>)

  datatype Receipt = Receipt(status: Status, removed: seq<Name>, removedBytes: nat)

  // ----- sums over inodes -----

  function Members(names: seq<Name>): set<Name> {
    set n | n in names
  }

  lemma MembersGrow(names: seq<Name>, n: Name)
    ensures Members(names + [n]) == Members(names) + {n}
  {
  }

  ghost function SumValues(m: map<FileId, nat>): nat {
    if m == map[] then 0 else var id :| id in m; m[id] + SumValues(m - {id})
  }

  lemma {:induction false} SumWithout(m: map<FileId, nat>, id: FileId)
    requires id in m
    ensures SumValues(m) == m[id] + SumValues(m - {id})
    decreases |m|
  {
    var k :| k in m && SumValues(m) == m[k] + SumValues(m - {k});
    if k != id {
      SumWithout(m - {k}, id);
      assert (m - {k}) - {id} == (m - {id}) - {k};
      SumWithout(m - {id}, k);
    }
  }

  method Sum(m: map<FileId, nat>) returns (total: nat)
    ensures total == SumValues(m)
  {
    total := 0;
    var rest := m;
    while rest != map[]
      invariant total + SumValues(rest) == SumValues(m)
      decreases |rest|
    {
      var id :| id in rest;
      SumWithout(rest, id);
      total := total + rest[id];
      rest := rest - {id};
    }
  }

  /** The allocation of each selected inode, once, as prepare tabulates it. */
  function PromiseTable(s: Selection, order: seq<Name>): map<FileId, nat>
    requires forall n :: n in order ==> n in s
  {
    if order == [] then map[]
    else var n := order[|order| - 1];
      PromiseTable(s, order[..|order| - 1])[s[n].row.id := s[n].row.blocks]
  }

  ghost function AllocationOf(t: Tree, s: set<Name>, alloc: Allocation): map<FileId, nat>
    requires s <= t.names.Keys
  {
    map id | id in (set n | n in s :: t.names[n]) :: alloc(id)
  }

  lemma AllocationGrows(t: Tree, s: set<Name>, n: Name, alloc: Allocation)
    requires s <= t.names.Keys && n in t.names
    ensures AllocationOf(t, s + {n}, alloc) == AllocationOf(t, s, alloc)[t.names[n] := alloc(t.names[n])]
  {
  }

  lemma {:induction false} PromiseTableIs(t: Tree, s: Selection, order: seq<Name>, alloc: Allocation)
    requires WellFormed(t) && RowsMatch(Inventory(t, alloc), Contents(t), s)
    requires forall n :: n in order ==> n in s
    ensures Members(order) <= t.names.Keys
    ensures PromiseTable(s, order) == AllocationOf(t, Members(order), alloc)
  {
    hide Links, AllocationOf, Inventory, Contents, RowsMatch;
    if order == [] {
      EmptyAllocation(t, alloc);
    } else {
      var rest, n := order[..|order| - 1], order[|order| - 1];
      assert order == rest + [n];
      PromiseTableIs(t, s, rest, alloc);
      SelectedRow(t, s, n, alloc);
      MembersGrow(rest, n);
      AllocationGrows(t, Members(rest), n, alloc);
    }
  }

  lemma SelectedRow(t: Tree, s: Selection, n: Name, alloc: Allocation)
    requires WellFormed(t) && RowsMatch(Inventory(t, alloc), Contents(t), s) && n in s
    ensures n in t.names && s[n].row.id == t.names[n] && s[n].row.blocks == alloc(t.names[n])
  {
    assert s[n].row == Inventory(t, alloc)[n];
  }

  lemma EmptyAllocation(t: Tree, alloc: Allocation)
    ensures Members([]) == {} && AllocationOf(t, {}, alloc) == map[]
  {
  }

  /** The bytes a selection holds, each inode counted once. */
  method Promise(s: Selection, ghost t: Tree, alloc: Allocation) returns (promised: nat)
    requires WellFormed(t) && RowsMatch(Inventory(t, alloc), Contents(t), s)
    ensures s.Keys <= t.names.Keys
    ensures promised == SumValues(AllocationOf(t, s.Keys, alloc))
  {
    var table: map<FileId, nat> := map[];
    var todo := s.Keys;
    ghost var seen: seq<Name> := [];
    while todo != {}
      invariant todo <= s.Keys
      invariant forall n :: n in seen <==> n in s && n !in todo
      invariant table == PromiseTable(s, seen)
      decreases |todo|
    {
      var n :| n in todo;
      todo := todo - {n};
      assert (seen + [n])[..|seen|] == seen;
      seen := seen + [n];
      table := table[s[n].row.id := s[n].row.blocks];
    }
    PromiseTableIs(t, s, seen, alloc);
    assert Members(seen) == s.Keys;
    promised := Sum(table);
  }

  /** prepare: qualify a snapshot and promise the bytes its selection holds. */
  method Prepare(target: Target, order: seq<Name>, keep: seq<Name>, cl: Classifier, alloc: Allocation)
    returns (plan: Result<Plan>, promised: nat)
    requires WellFormed(target.Value()) && Enumerates(order, target.names.Keys)
    ensures plan == Prepared(target.Value(), order, keep, cl, alloc)
    ensures plan.Ok? ==> plan.value.selected.Keys <= target.names.Keys
    ensures plan.Ok? ==> promised == SumValues(AllocationOf(target.Value(), plan.value.selected.Keys, alloc))
  {
    var t := target.Value();
    var files := Inventory(t, alloc);
    InventoryGroups(t, alloc);
    assert files.Keys == t.names.Keys;
    var selected := SelectPayload(files, Contents(t), order, keep, cl);
    if selected.Err? {
      return Err(selected.error), 0;
    }
    SelectionSound(files, Contents(t), order, keep, cl);
    promised := Promise(selected.value, t, alloc);
    plan := Ok(Plan(files, Contents(t), selected.value));
  }

  function Prepared(t: Tree, order: seq<Name>, keep: seq<Name>, cl: Classifier, alloc: Allocation): Result<Plan>
    requires forall n :: n in t.names ==> t.names[n] in t.inodes
  {
    var s :- Select(Inventory(t, alloc), Contents(t), order, keep, cl);
    Ok(Plan(Inventory(t, alloc), Contents(t), s))
  }

  // ----- stopping points -----

  function Intended(j: seq<Event>): set<Name> {
    set e | e in j && e.UnlinkIntent? :: e.path
  }

  function Completed(j: seq<Event>): set<Name> {
    set e | e in j && e.UnlinkComplete? :: e.path
  }

  lemma JournalGrows(j: seq<Event>, e: Event)
    ensures Intended(j + [e]) == Intended(j) + (if e.UnlinkIntent? then {e.path} else {})
    ensures Completed(j + [e]) == Completed(j) + (if e.UnlinkComplete? then {e.path} else {})
  {
    forall n | n in Intended(j) ensures n in Intended(j + [e]) {
      var x :| x in j && x.UnlinkIntent? && x.path == n;
      assert x in j + [e];
    }
    forall n | n in Completed(j) ensures n in Completed(j + [e]) {
      var x :| x in j && x.UnlinkComplete? && x.path == n;
      assert x in j + [e];
    }
    assert e in j + [e];
  }

  /** The names gone from the tree t. */
  function Absent(t: Tree, now: Tree): set<Name> {
    t.names.Keys - now.names.Keys
  }

  /** Completed names are recorded in memory, those are really gone, what is gone was announced, and at most one
      announced name is still open. Nothing but selected names is gone. */
  ghost predicate StoppingPoint(t: Tree, selected: set<Name>, start: Event, p: Snapshot) {
    && p.tree == Without(t, Absent(t, p.tree))
    && Completed(p.journal) <= Members(p.removed) <= Absent(t, p.tree) <= Intended(p.journal)
    && Intended(p.journal) <= selected
    && |Intended(p.journal)| <= |Completed(p.journal)| + 1
    && p.journal != [] && p.journal[0] == start
  }

  ghost predicate StoppingPoints(t: Tree, selected: set<Name>, start: Event, trace: seq<Snapshot>) {
    forall p :: p in trace ==> StoppingPoint(t, selected, start, p)
  }

  lemma AbsentAfter(t: Tree, s: set<Name>)
    requires s <= t.names.Keys
    ensures Absent(t, Without(t, s)) == s
  {
  }

  /** A snapshot in which gone is unlinked, with at most the name open announced beyond the completed ones. */
  lemma IsStoppingPoint(t: Tree, selected: set<Name>, start: Event, p: Snapshot, gone: set<Name>, open: Name)
    requires selected <= t.names.Keys && gone <= selected && p.tree == Without(t, gone)
    requires Completed(p.journal) <= Members(p.removed) <= gone <= Intended(p.journal) <= selected
    requires Intended(p.journal) <= Completed(p.journal) + {open}
    requires p.journal != [] && p.journal[0] == start
    ensures StoppingPoint(t, selected, start, p)
  {
    AbsentAfter(t, gone);
    Lists.SubsetSize(Intended(p.journal), Completed(p.journal) + {open});
  }

  /** The event that closes a journal opens and completes nothing. */
  lemma ClosingEvent(t: Tree, selected: set<Name>, start: Event, p: Snapshot, e: Event)
    requires StoppingPoint(t, selected, start, p) && (e.Stopped? || e.Verified?)
    ensures StoppingPoint(t, selected, start, p.(journal := p.journal + [e]))
  {
    JournalGrows(p.journal, e);
  }

  // ----- the transaction -----

  function Count(links: map<FileId, nat>, id: FileId): nat {
    if id in links then links[id] else 0
  }

  /** At which step the last link of an inode went, when the names went one by one; 0 when none did. */
  function LastStep(t: Tree, removed: seq<Name>, id: FileId): (step: nat)
    ensures step <= |removed|
  {
    if removed == [] then 0
    else var n := removed[|removed| - 1];
      if n in t.names && t.names[n] == id then |removed| else LastStep(t, removed[..|removed| - 1], id)
  }

  /** The allocation of every inode whose last link is among the removed names, as it was measured just
      before that link went. Step k is measured by alloc(k). */
  ghost function BookedOf(t: Tree, removed: seq<Name>, alloc: nat -> Allocation): map<FileId, nat> {
    map id | id in t.inodes && 0 < Taken(t, Members(removed), id) == t.inodes[id].nlink ::
      alloc(LastStep(t, removed, id))(id)
  }

  /** No drift where it counts: just before its last link goes, each selected inode measures as it first did. */
  ghost predicate Steady(t: Tree, removed: seq<Name>, first: Allocation, alloc: nat -> Allocation) {
    forall n :: n in removed && n in t.names ==>
      alloc(LastStep(t, removed, t.names[n]))(t.names[n]) == first(t.names[n])
  }

  /** What apply keeps in memory and in its journal. */
  datatype Books = Books(journal: seq<Event>, removed: seq<Name>, dispatched: bool,
                         links: map<FileId, nat>, allocations: map<FileId, nat>)

  /** The books after exactly the names in done were retired one by one. */
  ghost predicate Balanced(b: Books, t: Tree, done: set<Name>, start: Event, alloc: nat -> Allocation) {
    && Members(b.removed) == done && |b.removed| == |done|
    && Intended(b.journal) == done
    && Completed(b.journal) == done
    && b.journal != [] && b.journal[0] == start
    && (b.dispatched <==> done != {})
    && LinksCounted(b.links, t, done)
    && b.allocations == BookedOf(t, b.removed, alloc)
  }

  ghost predicate LinksCounted(links: map<FileId, nat>, t: Tree, done: set<Name>) {
    forall id :: Count(links, id) == Taken(t, done, id)
  }

  function Recorded(b: Books, name: Name, id: FileId, current: Row, intent: Event): Books {
    Books(b.journal + [intent] + [UnlinkComplete(name)], b.removed + [name], true,
          b.links[id := Count(b.links, id) + 1],
          if current.nlink == 1 then b.allocations[id := current.blocks] else b.allocations)
  }

  lemma LinksStep(links: map<FileId, nat>, t: Tree, done: set<Name>, name: Name)
    requires name in t.names && name !in done && LinksCounted(links, t, done)
    ensures LinksCounted(links[t.names[name] := Count(links, t.names[name]) + 1], t, done + {name})
  {
    var after := links[t.names[name] := Count(links, t.names[name]) + 1];
    forall k ensures Count(after, k) == Taken(t, done + {name}, k) {
      TakenOneMore(t, done, name, k);
      assert Count(links, k) == Taken(t, done, k);
    }
  }

  /** An inode's allocation is booked with its last link. */
  lemma BookedStep(t: Tree, removed: seq<Name>, alloc: nat -> Allocation, name: Name)
    requires WellFormed(t) && name in t.names && name !in Members(removed) && t.names[name] in t.inodes
    ensures var id, m := t.names[name], BookedOf(t, removed, alloc);
      BookedOf(t, removed + [name], alloc)
      == if Taken(t, Members(removed), id) + 1 == t.inodes[id].nlink then m[id := alloc(|removed| + 1)(id)] else m
  {
    hide Taken, Links, Members, LastStep;
    var id, done := t.names[name], Members(removed);
    MembersGrow(removed, name);
    TakenOneMore(t, done, name, id);
    TakenAtMostLinks(t, done + {name}, id);
    forall k ensures LastStep(t, removed + [name], k) == if k == id then |removed| + 1 else LastStep(t, removed, k) {
      LastStepGrows(t, removed, name, k);
    }
    forall k | k != id ensures Taken(t, done + {name}, k) == Taken(t, done, k) {
      TakenOneMore(t, done, name, k);
    }
  }

  lemma LastStepGrows(t: Tree, removed: seq<Name>, name: Name, id: FileId)
    requires name in t.names
    ensures LastStep(t, removed + [name], id) == if id == t.names[name] then |removed| + 1 else LastStep(t, removed, id)
  {
    assert (removed + [name])[..|removed|] == removed;
  }

  lemma RecordedBalanced(b: Books, t: Tree, done: set<Name>, start: Event, alloc: nat -> Allocation,
                         name: Name, step: nat, intent: Event)
    requires WellFormed(t) && name in t.names && name !in done && Balanced(b, t, done, start, alloc)
    requires intent.UnlinkIntent? && intent.path == name && step == |b.removed| + 1
    ensures var id := t.names[name];
            && id in t.inodes && name in Without(t, done).names && id in Without(t, done).inodes
            && Balanced(Recorded(b, name, id, Metadata(Without(t, done), name, alloc(step)), intent),
                        t, done + {name}, start, alloc)
  {
    hide Taken, Links, LinksCounted, BookedOf, WellFormed, Members, Intended, Completed;
    StillLinked(t, done, name);
    MembersGrow(b.removed, name);
    var id := t.names[name];
    var current := Metadata(Without(t, done), name, alloc(step));
    var after := Recorded(b, name, id, current, intent);
    JournalGrows(b.journal, intent);
    JournalGrows(b.journal + [intent], UnlinkComplete(name));
    LinksStep(b.links, t, done, name);
    BookedStep(t, b.removed, alloc, name);
  }

  lemma BalancedFacts(b: Books, t: Tree, done: set<Name>, start: Event, alloc: nat -> Allocation, id: FileId)
    requires Balanced(b, t, done, start, alloc)
    ensures Members(b.removed) == done && Intended(b.journal) == done && Completed(b.journal) == done
    ensures b.journal != [] && b.journal[0] == start
    ensures Count(b.links, id) == Taken(t, done, id)
    ensures |b.removed| == |done| && b.allocations == BookedOf(t, b.removed, alloc)
  {
  }

  /** The selection apply may retire: re-derived now, and the same as the reviewed plan but for allocation. */
  function Approved(t: Tree, plan: Plan, order: seq<Name>, keep: seq<Name>, cl: Classifier, alloc: Allocation)
    : Result<Selection>
    requires forall n :: n in t.names ==> t.names[n] in t.inodes
  {
    if StableRows(Inventory(t, alloc)) != StableRows(plan.files) then Err("Plan inventory changed")
    else
      var s :- Select(Inventory(t, alloc), Contents(t), order, keep, cl);
      if StableSelection(s) != StableSelection(plan.selected) || Contents(t) != plan.contents
      then Err("Source, classifier or retained evidence changed")
      else Ok(s)
  }

  /** The tree is the one the plan describes, and what is selected now is what was reviewed: the same names, with the
      same kinds, digests and rows but for allocation. */
  ghost predicate Reviewed(t: Tree, plan: Plan, derived: Selection) {
    && Describes(plan.files, plan.contents, t)
    && derived.Keys == plan.selected.Keys
    && forall n :: n in derived ==>
         && derived[n].kind == plan.selected[n].kind && derived[n].sha == plan.selected[n].sha
         && SameButAllocation(derived[n].row, plan.selected[n].row)
  }

  lemma SelectionTells(a: Selection, b: Selection)
    ensures StableSelection(a) == StableSelection(b) <==>
            a.Keys == b.Keys && forall n :: n in a ==>
              a[n].kind == b[n].kind && a[n].sha == b[n].sha && SameButAllocation(a[n].row, b[n].row)
  {
    hide Stable, SameButAllocation;
    forall n | n in a && n in b ensures Stable(a[n].row) == Stable(b[n].row) <==> SameButAllocation(a[n].row, b[n].row) {
      StableTells(a[n].row, b[n].row);
    }
    assert StableSelection(a).Keys == a.Keys && StableSelection(b).Keys == b.Keys;
    if StableSelection(a) == StableSelection(b) {
      forall n | n in a
        ensures a[n].kind == b[n].kind && a[n].sha == b[n].sha && SameButAllocation(a[n].row, b[n].row)
      {
        assert StableSelection(a)[n] == StableSelection(b)[n];
      }
    }
  }

  /** A selection is approved exactly when the tree is the reviewed one and the selection derived now is the reviewed one. */
  lemma ApprovedExactly(t: Tree, plan: Plan, order: seq<Name>, keep: seq<Name>, cl: Classifier, alloc: Allocation)
    requires forall n :: n in t.names ==> t.names[n] in t.inodes
    ensures var derived := Select(Inventory(t, alloc), Contents(t), order, keep, cl);
      var approved := Approved(t, plan, order, keep, cl, alloc);
      && (approved.Ok? <==> derived.Ok? && Reviewed(t, plan, derived.value))
      && (approved.Ok? ==> approved.value == derived.value)
  {
    hide Select, Describes, StableSelection, StableRows, SameButAllocation, Metadata;
    InventoryTells(t, plan.files, plan.contents, alloc);
    var derived := Select(Inventory(t, alloc), Contents(t), order, keep, cl);
    if derived.Ok? {
      SelectionTells(derived.value, plan.selected);
    }
  }

  lemma ReviewedNames(t: Tree, plan: Plan, derived: Selection)
    requires Reviewed(t, plan, derived)
    ensures derived.Keys == plan.selected.Keys
  {
  }

  lemma InodesPresent(t: Tree)
    requires WellFormed(t)
    ensures forall n :: n in t.names ==> t.names[n] in t.inodes
  {
  }

  /** A plan just prepared is approved, whatever allocation is measured the second time. */
  lemma PreparedIsApproved(t: Tree, order: seq<Name>, keep: seq<Name>, cl: Classifier, first: Allocation, second: Allocation)
    requires WellFormed(t) && Enumerates(order, t.names.Keys) && Prepared(t, order, keep, cl, first).Ok?
    ensures Approved(t, Prepared(t, order, keep, cl, first).value, order, keep, cl, second).Ok?
    ensures Approved(t, Prepared(t, order, keep, cl, first).value, order, keep, cl, second).value.Keys
            == Prepared(t, order, keep, cl, first).value.selected.Keys
  {
    hide Select, UnitTable, LinkClosed, Candidates, AddMetadata, Links, WellFormed;
    assert forall n :: n in t.names ==> t.names[n] in t.inodes by {
      InodesPresent(t);
    }
    var f, g := Inventory(t, first), Inventory(t, second);
    AlikeRows(f, g);
    SelectionStable(f, g, Contents(t), order, keep, cl);
    SelectionStable(g, f, Contents(t), order, keep, cl);
    var x, y := Select(f, Contents(t), order, keep, cl).value, Select(g, Contents(t), order, keep, cl).value;
    assert x.Keys == StableSelection(x).Keys == StableSelection(y).Keys == y.Keys;
  }

  /** A plan just prepared is the reviewed one when it is applied, whatever allocation is measured the second time. */
  lemma PreparedIsReviewed(t: Tree, order: seq<Name>, keep: seq<Name>, cl: Classifier, first: Allocation, second: Allocation)
    requires WellFormed(t) && Enumerates(order, t.names.Keys) && Prepared(t, order, keep, cl, first).Ok?
    ensures forall n :: n in t.names ==> t.names[n] in t.inodes
    ensures var derived := Select(Inventory(t, second), Contents(t), order, keep, cl);
      derived.Ok? && Reviewed(t, Prepared(t, order, keep, cl, first).value, derived.value)
  {
    hide Select, Prepared, Approved, Reviewed, Metadata, WellFormed;
    InodesPresent(t);
    PreparedIsApproved(t, order, keep, cl, first, second);
    ApprovedExactly(t, Prepared(t, order, keep, cl, first).value, order, keep, cl, second);
  }

  /** Every selected file as the transaction expects it. */
  ghost predicate Expected(t: Tree, s: Selection, alloc: Allocation) {
    forall n :: n in s ==> n in t.names && t.names[n] in t.inodes && s[n].row == Metadata(t, n, alloc)
                           && s[n].sha == t.inodes[t.names[n]].content
                           && s[n].row.ftype == Regular
  }

  /** Once whole inodes are gone, each of them is booked, once, as its last link measured. */
  lemma AllBooked(t: Tree, removed: seq<Name>, alloc: nat -> Allocation, first: Allocation)
    requires WellFormed(t) && Members(removed) <= t.names.Keys && TakesWholeInodes(t, Members(removed))
    ensures BookedOf(t, removed, alloc).Keys == AllocationOf(t, Members(removed), first).Keys
    ensures Steady(t, removed, first, alloc) ==> BookedOf(t, removed, alloc) == AllocationOf(t, Members(removed), first)
  {
    hide Taken, LastStep;
    var a, m := AllocationOf(t, Members(removed), first), BookedOf(t, removed, alloc);
    forall id ensures id in m <==> id in a {
      if id in t.inodes {
        WholeOrUntouched(t, Members(removed), id);
      }
    }
    if Steady(t, removed, first, alloc) {
      forall id | id in m ensures m[id] == a[id] {
        var n :| n in Members(removed) && t.names[n] == id;
      }
    }
  }

  /** Where only one inode may have drifted, the bytes booked are the bytes promised exactly when it has not. */
  lemma DriftShows(booked: map<FileId, nat>, promised: map<FileId, nat>, id: FileId)
    requires booked.Keys == promised.Keys && id in booked
    requires forall k :: k in booked && k != id ==> booked[k] == promised[k]
    ensures SumValues(booked) == SumValues(promised) <==> booked[id] == promised[id]
  {
    SumWithout(booked, id);
    SumWithout(promised, id);
    assert booked - {id} == promised - {id};
  }

  lemma NothingIntended(start: Event)
    requires start.Started?
    ensures Intended([start]) == {} && Completed([start]) == {} && Members([]) == {}
  {
  }

  /** What is left after taking whole inodes passes the inventory and content comparison. */
  lemma AfterCheckPasses(t: Tree, s: set<Name>, before: Allocation, after: Allocation)
    requires WellFormed(t) && TakesWholeInodes(t, s)
    ensures forall n :: n in Without(t, s).names ==> Without(t, s).names[n] in Without(t, s).inodes
    ensures StableRows(Inventory(Without(t, s), after)) == StableRows(Inventory(t, before) - s)
    ensures Contents(Without(t, s)) == Contents(t) - s
  {
    hide Without, Links;
    RetainedUnchanged(t, s, after);
    RetainedUnchanged(t, s, before);
  }

  lemma NothingDone(t: Tree, start: Event, alloc: nat -> Allocation)
    requires WellFormed(t) && start.Started?
    ensures Balanced(Books([start], [], false, map[], map[]), t, {}, start, alloc)
  {
    assert Members([]) == {};
    forall id ensures Taken(t, {}, id) == 0 {
      TakenNothing(t, id);
    }
  }

  lemma OneFewer(all: set<Name>, todo: set<Name>, name: Name)
    requires name in todo && todo <= all
    ensures all - (todo - {name}) == (all - todo) + {name} && |all - (todo - {name})| == |all - todo| + 1
    ensures |all - todo| < |all|
  {
    assert all - (todo - {name}) == (all - todo) + {name};
    Lists.SubsetSize((all - todo) + {name}, all);
  }

  lemma ExpectedAt(t: Tree, s: Selection, alloc: Allocation, n: Name)
    requires Expected(t, s, alloc) && n in s
    ensures n in t.names && t.names[n] in t.inodes
    ensures s[n].row == Metadata(t, n, alloc) && s[n].sha == t.inodes[t.names[n]].content
  {
  }

  lemma NoFaultYet(faults: Faults)
    ensures !FaultWithin(faults, 0)
  {
  }

  lemma FaultOrLater(faults: Faults, n: nat, step: nat)
    requires step < n
    ensures step in faults ==> FaultWithin(faults, n)
    ensures FaultWithin(faults, step + 1) <==> FaultWithin(faults, step) || step in faults
  {
  }

  /** A file that is as its plan says, less the links of its inode that are gone already. */
  predicate AsExpected(t: Tree, name: Name, expected: Entry, taken: nat) {
    && name in t.names && t.names[name] in t.inodes
    && var node := t.inodes[t.names[name]];
    && expected.row.id == t.names[name] && expected.row.bytes == |node.content| && expected.row.mtimeNs == node.mtimeNs
    && expected.row.mode == node.mode && expected.row.ftype == node.ftype && expected.row.nlink == node.nlink + taken
    && expected.sha == node.content
  }

  /** Without interference a selected file stays as expected while its peers go. */
  lemma StillExpected(t: Tree, done: set<Name>, name: Name, expected: Entry, first: Allocation)
    requires WellFormed(t) && name in t.names && name !in done && t.names[name] in t.inodes
    requires expected.row == Metadata(t, name, first) && expected.sha == t.inodes[t.names[name]].content
    ensures AsExpected(Without(t, done), name, expected, Taken(t, done, t.names[name]))
    ensures forall n :: n in Without(t, done).names ==> Without(t, done).names[n] in Without(t, done).inodes
  {
    hide Taken, Links, Without;
    StillLinked(t, done, name);
    forall n | n in Without(t, done).names ensures Without(t, done).names[n] in Without(t, done).inodes {
      assert n in t.names && n !in done by { LeftOver(t, done, n); }
      StillLinked(t, done, n);
    }
  }

  lemma LeftOver(t: Tree, done: set<Name>, n: Name)
    requires n in Without(t, done).names
    ensures n in t.names && n !in done
  {
  }

  class Transaction {
    var journal: seq<Event>
    var removed: seq<Name>
    var dispatched: bool
    var removedLinks: map<FileId, nat>
    var removedAllocations: map<FileId, nat>
    ghost var trace: seq<Snapshot>

    constructor ()
      ensures Value() == Books([], [], false, map[], map[])
      ensures trace == []
    {
      journal, removed, dispatched, removedLinks, removedAllocations, trace := [], [], false, map[], map[], [];
    }

    function Value(): Books
      reads this
    {
      Books(journal, removed, dispatched, removedLinks, removedAllocations)
    }

    /** Check one selected file and announce its unlink; nothing is announced of a file that is not as expected. */
    method Announce(target: Target, name: Name, expected: Entry, alloc: Allocation) returns (r: Result<Row>)
      requires forall n :: n in target.names ==> target.names[n] in target.inodes
      modifies this`journal
      ensures r.Ok? <==> AsExpected(target.Value(), name, expected, Count(removedLinks, expected.row.id))
      ensures r.Err? ==> journal == old(journal)
      ensures r.Ok? ==> r.value == Metadata(target.Value(), name, alloc)
      ensures r.Ok? ==> journal == old(journal) + [UnlinkIntent(name, expected.sha, r.value.blocks, r.value.nlink)]
    {
      if name !in target.names {
        return Err("FileNotFoundError");
      }
      var current := Metadata(target.Value(), name, alloc);
      var taken := Count(removedLinks, expected.row.id);
      if expected.row.nlink < taken || Stable(current) != Stable(expected.row.(nlink := expected.row.nlink - taken))
         || target.inodes[target.names[name]].content != expected.sha {
        return Err("Selected file changed before effect");
      }
      journal := journal + [UnlinkIntent(name, expected.sha, current.blocks, current.nlink)];
      r := Ok(current);
    }

    /** Without interference the check passes, and the announcement is an instant where the process may stop. */
    method AnnounceNext(target: Target, name: Name, expected: Entry, alloc: Allocation, first: Allocation,
                        ghost t: Tree, ghost done: set<Name>, ghost selected: set<Name>, ghost start: Event)
      returns (current: Row, ghost intent: Event)
      requires WellFormed(t) && name in t.names && name !in done
      requires done <= selected <= t.names.Keys && name in selected && target.Value() == Without(t, done)
      requires t.names[name] in t.inodes
      requires expected.row == Metadata(t, name, first) && expected.sha == t.inodes[t.names[name]].content
      requires Count(removedLinks, t.names[name]) == Taken(t, done, t.names[name])
      requires Completed(journal) == Members(removed) == Intended(journal) == done
      requires journal != [] && journal[0] == start && StoppingPoints(t, selected, start, trace)
      modifies this`journal, this`trace
      ensures name in target.names && target.names[name] == t.names[name] && t.names[name] in target.inodes
      ensures current == Metadata(target.Value(), name, alloc) && current.id == t.names[name]
      ensures intent == UnlinkIntent(name, expected.sha, current.blocks, current.nlink)
      ensures journal == old(journal) + [intent] && Intended(journal) == done + {name} && Completed(journal) == done
      ensures StoppingPoints(t, selected, start, trace)
      ensures StoppingPoint(t, selected, start, Snapshot(target.Value(), journal, removed))
    {
      hide Members, WellFormed, Taken, Links, StoppingPoint, StoppingPoints, Intended, Completed, Absent, Without;
      StillLinked(t, done, name);
      StillExpected(t, done, name, expected, first);
      var announced := Announce(target, name, expected, alloc);
      if announced.Err? {
        // Nothing else touches the tree, so the file is as expected, less the links already taken.
        assert false;
      }
      current := announced.value;
      intent := UnlinkIntent(name, expected.sha, current.blocks, current.nlink);
      JournalGrows(old(journal), intent);
      Record(target, t, selected, start, done, name);
    }

    /** One selected file: check it, announce, unlink, record, complete. */
    method RetireOne(target: Target, name: Name, expected: Entry, step: nat, fault: Option<Fault>,
                     alloc: nat -> Allocation, ghost t: Tree, ghost done: set<Name>, ghost selected: set<Name>,
                     ghost start: Event)
      returns (raised: bool)
      requires WellFormed(t) && name in t.names && name !in done && t.names[name] in t.inodes
      requires done <= selected <= t.names.Keys && name in selected
      requires expected.row == Metadata(t, name, alloc(0)) && expected.sha == t.inodes[t.names[name]].content
      requires target.Value() == Without(t, done)
      requires Balanced(Value(), t, done, start, alloc) && StoppingPoints(t, selected, start, trace)
      requires step == |done| + 1
      modifies target, this
      ensures StoppingPoints(t, selected, start, trace)
      ensures StoppingPoint(t, selected, start, Snapshot(target.Value(), journal, removed))
      ensures raised <==> fault.Some?
      ensures !raised ==> Balanced(Value(), t, done + {name}, start, alloc) && target.Value() == Without(t, done + {name})
      ensures raised ==> dispatched && removed == old(removed) && removedAllocations == BookedOf(t, removed, alloc)
      ensures raised ==> target.Value() == Without(t, if fault.Some? && fault.value.AfterEffect? then done + {name} else done)
    {
      hide Members, WellFormed, Taken, Links, Balanced, StoppingPoint, StoppingPoints, Intended, Completed, Absent, Without,
           Unlinked, Metadata, BookedOf;
      ghost var before := Value();
      BalancedFacts(before, t, done, start, alloc, t.names[name]);
      var current, intent := AnnounceNext(target, name, expected, alloc(step), alloc(0), t, done, selected, start);
      RecordedBalanced(before, t, done, start, alloc, name, step, intent);
      UnlinkOneMore(t, done, name);
      dispatched := true;
      if fault.Some? && fault.value.BeforeEffect? {
        return true;
      }
      target.Unlink(name);
      Record(target, t, selected, start, done + {name}, name);
      if fault.Some? {
        return true;
      }
      Acknowledge(target, name, current.id, current, t, done, selected, start, before, intent);
      raised := false;
    }

    /** After the unlink: book it in memory, then in the journal. */
    method Acknowledge(target: Target, name: Name, id: FileId, current: Row,
                       ghost t: Tree, ghost done: set<Name>, ghost selected: set<Name>, ghost start: Event,
                       ghost before: Books, ghost intent: Event)
      requires Value() == before.(journal := before.journal + [intent], dispatched := true)
      requires done + {name} <= selected <= t.names.Keys && target.Value() == Without(t, done + {name})
      requires Completed(journal) == Members(removed) == done && Intended(journal) == done + {name}
      requires journal != [] && journal[0] == start && StoppingPoints(t, selected, start, trace)
      modifies this`journal, this`removed, this`removedLinks, this`removedAllocations, this`trace
      ensures Value() == Recorded(before, name, id, current, intent)
      ensures StoppingPoints(t, selected, start, trace)
      ensures StoppingPoint(t, selected, start, Snapshot(target.Value(), journal, removed))
    {
      hide Members, Taken, Links, StoppingPoint, StoppingPoints, Intended, Completed, Absent, Without;
      MembersGrow(removed, name);
      removed := removed + [name];
      Record(target, t, selected, start, done + {name}, name);
      removedLinks := removedLinks[id := Count(removedLinks, id) + 1];
      if current.nlink == 1 {
        removedAllocations := removedAllocations[id := current.blocks];
      }
      JournalGrows(journal, UnlinkComplete(name));
      journal := journal + [UnlinkComplete(name)];
      Record(target, t, selected, start, done + {name}, name);
    }

    /** Note the present instant as one where the process may stop. */
    ghost method Record(target: Target, t: Tree, selected: set<Name>, start: Event, gone: set<Name>, open: Name)
      requires selected <= t.names.Keys && gone <= selected && target.Value() == Without(t, gone)
      requires Completed(journal) <= Members(removed) <= gone <= Intended(journal) <= selected
      requires Intended(journal) <= Completed(journal) + {open}
      requires journal != [] && journal[0] == start
      requires StoppingPoints(t, selected, start, trace)
      modifies this`trace
      ensures trace == old(trace) + [Snapshot(target.Value(), journal, removed)]
      ensures StoppingPoint(t, selected, start, Snapshot(target.Value(), journal, removed))
      ensures StoppingPoints(t, selected, start, trace)
    {
      IsStoppingPoint(t, selected, start, Snapshot(target.Value(), journal, removed), gone, open);
      trace := trace + [Snapshot(target.Value(), journal, removed)];
    }

    /** Stop with the journal saying so; nothing more is removed. */
    method Stop(error: string) returns (r: Receipt)
      modifies this`journal
      ensures r.status == (if removed != [] then Partial else if dispatched then EffectUncertain else HeldNoEffect)
      ensures r.removed == removed && r.removedBytes == SumValues(removedAllocations)
      ensures journal == old(journal) + [Stopped(r.status, error)]
    {
      var status := if removed != [] then Partial else if dispatched then EffectUncertain else HeldNoEffect;
      journal := journal + [Stopped(status, error)];
      var bytes := Sum(removedAllocations);
      r := Receipt(status, removed, bytes);
    }

    /** The deletion loop. */
    method RetireAll(target: Target, selected: Selection, alloc: nat -> Allocation, faults: Faults,
                     ghost t: Tree, ghost start: Event)
      returns (raised: bool)
      requires WellFormed(t) && selected.Keys <= t.names.Keys && Expected(t, selected, alloc(0))
      requires target.Value() == Without(t, {}) && Balanced(Value(), t, {}, start, alloc)
      requires StoppingPoints(t, selected.Keys, start, trace)
      requires StoppingPoint(t, selected.Keys, start, Snapshot(target.Value(), journal, removed))
      modifies target, this
      ensures StoppingPoints(t, selected.Keys, start, trace)
      ensures StoppingPoint(t, selected.Keys, start, Snapshot(target.Value(), journal, removed))
      ensures raised <==> FaultWithin(faults, |selected|)
      ensures !raised ==> target.Value() == Without(t, selected.Keys) && Balanced(Value(), t, selected.Keys, start, alloc)
      ensures raised ==> dispatched && removedAllocations == BookedOf(t, removed, alloc)
    {
      hide StoppingPoints, StoppingPoint, Balanced, Without, WellFormed, Members, BookedOf, Expected, Metadata, FaultWithin;
      var todo := selected.Keys;
      NoFaultYet(faults);
      var step := 0;
      ghost var done: set<Name> := {};
      while todo != {}
        invariant todo <= selected.Keys && done == selected.Keys - todo && step == |done|
        invariant target.Value() == Without(t, done)
        invariant Balanced(Value(), t, done, start, alloc) && StoppingPoints(t, selected.Keys, start, trace)
        invariant StoppingPoint(t, selected.Keys, start, Snapshot(target.Value(), journal, removed))
        invariant !FaultWithin(faults, step)
        decreases |todo|
      {
        var name :| name in todo;
        OneFewer(selected.Keys, todo, name);
        ExpectedAt(t, selected, alloc(0), name);
        FaultOrLater(faults, |selected|, step);
        raised := RetireOne(target, name, selected[name], step + 1,
                             if step in faults then Some(faults[step]) else None, alloc, t, done, selected.Keys, start);
        if raised {
          return;
        }
        todo := todo - {name};
        done := done + {name};
        step := step + 1;
      }
      assert done == selected.Keys;
      BalancedFacts(Value(), t, done, start, alloc, FileId(0, 0));
      raised := false;
    }

    /** Deletion and the checks after it. */
    method Retire(target: Target, selected: Selection, alloc: nat -> Allocation, faults: Faults,
                  ghost t: Tree, ghost start: Event)
      returns (r: Receipt)
      requires WellFormed(t) && TakesWholeInodes(t, selected.Keys) && Expected(t, selected, alloc(0))
      requires target.Value() == t && Value() == Books([start], [], false, map[], map[]) && trace == [] && start.Started?
      modifies target, this
      ensures selected.Keys <= t.names.Keys && StoppingPoints(t, selected.Keys, start, trace)
      ensures StoppingPoint(t, selected.Keys, start, Snapshot(target.Value(), journal, removed))
      ensures r.status == Complete <==> !FaultWithin(faults, |selected|)
      ensures r.status == Complete ==> target.Value() == Without(t, selected.Keys) && Members(r.removed) == selected.Keys
      ensures r.removedBytes == SumValues(BookedOf(t, r.removed, alloc))
      ensures r.status != Complete ==> r.status == (if r.removed != [] then Partial else EffectUncertain)
    {
      hide Taken, Links, Without, StoppingPoint, StoppingPoints, TakesWholeInodes, Balanced, Inventory, Contents, Absent,
           Intended, Completed, Members, BookedOf, SumValues, FaultWithin;
      ghost var s := selected.Keys;
      assert s <= t.names.Keys;
      WithoutNothing(t);
      NothingDone(t, start, alloc);
      NothingIntended(start);
      var files := Inventory(target.Value(), alloc(0));
      var contents := Contents(target.Value());
      Record(target, t, s, start, {}, []);
      var raised := RetireAll(target, selected, alloc, faults, t, start);
      ghost var last := Snapshot(target.Value(), journal, removed);
      if raised {
        r := Stop("unlink raised");
        ClosingEvent(t, s, start, last, Stopped(r.status, "unlink raised"));
      } else {
        r := Settle(target, selected, files, contents, alloc, t, start);
        ClosingEvent(t, s, start, last, Verified);
      }
    }

    /** The comparison of what is retained with what was there before: names, rows and contents. */
    method Confirm(target: Target, selected: Selection, files: map<Name, Row>, contents: map<Name, Content>, alloc: Allocation)
      returns (r: Result<()>)
      requires forall n :: n in target.names ==> target.names[n] in target.inodes
      modifies this`journal
      ensures r.Ok? <==> Describes(files - selected.Keys, contents - selected.Keys, target.Value())
      ensures journal == if r.Ok? then old(journal) + [Verified] else old(journal)
    {
      var after := Inventory(target.Value(), alloc);
      InventoryTells(target.Value(), files - selected.Keys, contents - selected.Keys, alloc);
      if StableRows(after) != StableRows(files - selected.Keys) || Contents(target.Value()) != contents - selected.Keys {
        return Err("Retained files changed");
      }
      journal := journal + [Verified];
      r := Ok(());
    }

    /** What is retained is compared, and the receipt written. */
    method Settle(target: Target, selected: Selection, files: map<Name, Row>, contents: map<Name, Content>,
                  alloc: nat -> Allocation, ghost t: Tree, ghost start: Event)
      returns (r: Receipt)
      requires WellFormed(t) && selected.Keys <= t.names.Keys && TakesWholeInodes(t, selected.Keys)
      requires files == Inventory(t, alloc(0)) && contents == Contents(t)
      requires target.Value() == Without(t, selected.Keys) && Balanced(Value(), t, selected.Keys, start, alloc)
      modifies this`journal
      ensures journal == old(journal) + [Verified]
      ensures r.status == Complete && r.removed == removed && Members(removed) == selected.Keys
      ensures r.removedBytes == SumValues(BookedOf(t, removed, alloc))
    {
      hide Taken, Links, Without, WellFormed, TakesWholeInodes, LinksCounted, BookedOf, SumValues, Describes;
      AfterCheckPasses(t, selected.Keys, alloc(0), alloc(|selected| + 1));
      InventoryTells(target.Value(), files - selected.Keys, contents - selected.Keys, alloc(|selected| + 1));
      var confirmed := Confirm(target, selected, files, contents, alloc(|selected| + 1));
      if confirmed.Err? {
        // Whole inodes were taken, so no retained row or content can differ.
        assert false;
      }
      var bytes := Sum(removedAllocations);
      r := Receipt(Complete, removed, bytes);
    }

    /** Nothing is touched unless the tree and the selection derived now are the reviewed ones; then exactly the reviewed
        names are retired, unless an unlink raises, and nothing but them is ever unlinked. */
    method Apply(target: Target, plan: Plan, start: Event, order: seq<Name>, keep: seq<Name>, cl: Classifier,
                 alloc: nat -> Allocation, faults: Faults)
      returns (r: Receipt)
      requires WellFormed(target.Value()) && Enumerates(order, target.names.Keys)
      requires Value() == Books([], [], false, map[], map[]) && trace == [] && start.Started?
      modifies target, this
      ensures var t := old(target.Value());
              var derived := Select(Inventory(t, alloc(0)), Contents(t), order, keep, cl);
              var go := derived.Ok? && Reviewed(t, plan, derived.value);
              && (!go ==> r.status == HeldNoEffect && r.removed == [] && target.Value() == t && trace == []
                          && |journal| == 2 && journal[0] == start && journal[1].Stopped?
                          && journal[1].status == HeldNoEffect)
              && (go ==>
                    var s := plan.selected.Keys;
                    && s <= t.names.Keys
                    && StoppingPoints(t, s, start, trace)
                    && StoppingPoint(t, s, start, Snapshot(target.Value(), journal, removed))
                    && (r.status == Complete <==> !FaultWithin(faults, |s|))
                    && (r.status == Complete ==> target.Value() == Without(t, s) && Members(r.removed) == s)
                    && r.removedBytes == SumValues(BookedOf(t, r.removed, alloc))
                    && (r.status != Complete ==> r.status == (if r.removed != [] then Partial else EffectUncertain)))
              && (forall n :: n in t.names && n !in target.names ==> n in plan.selected)
    {
      hide Taken, Links, Without, StoppingPoints, TakesWholeInodes, Expected, SumValues, Approved, BookedOf, Select,
        Members, Intended, Completed, WellFormed, Reviewed;
      ghost var t := target.Value();
      journal := [start];
      InodesPresent(t);
      ApprovedExactly(t, plan, order, keep, cl, alloc(0));
      var approved := Qualify(target, plan, order, keep, cl, alloc(0));
      if approved.Err? {
        r := Stop(approved.error);
      } else {
        ReviewedNames(t, plan, approved.value);
        r := Retire(target, approved.value, alloc, faults, t, start);
      }
    }

    /** Everything apply checks before its first effect. */
    method Qualify(target: Target, plan: Plan, order: seq<Name>, keep: seq<Name>, cl: Classifier, alloc: Allocation)
      returns (r: Result<Selection>)
      requires WellFormed(target.Value()) && Enumerates(order, target.names.Keys)
      ensures r == Approved(target.Value(), plan, order, keep, cl, alloc)
      ensures r.Ok? ==> TakesWholeInodes(target.Value(), r.value.Keys) && Expected(target.Value(), r.value, alloc)
    {
      hide Select, TakesWholeInodes, Expected, StableRows, StableSelection;
      var t := target.Value();
      var files := Inventory(t, alloc);
      InventoryGroups(t, alloc);
      assert files.Keys == t.names.Keys;
      if StableRows(files) != StableRows(plan.files) {
        return Err("Plan inventory changed");
      }
      r := SelectPayload(files, Contents(t), order, keep, cl);
      if r.Err? {
        return;
      }
      if StableSelection(r.value) != StableSelection(plan.selected) || Contents(t) != plan.contents {
        return Err("Source, classifier or retained evidence changed");
      }
      SelectedExpected(t, order, keep, cl, alloc);
    }
  }

  lemma SelectedExpected(t: Tree, order: seq<Name>, keep: seq<Name>, cl: Classifier, alloc: Allocation)
    requires WellFormed(t) && Enumerates(order, t.names.Keys)
    requires Select(Inventory(t, alloc), Contents(t), order, keep, cl).Ok?
    ensures var s := Select(Inventory(t, alloc), Contents(t), order, keep, cl).value;
      TakesWholeInodes(t, s.Keys) && Expected(t, s, alloc)
  {
    hide Select, LinkClosed, Candidates, UnitTable, AddMetadata, TakesWholeInodes;
    InventoryGroups(t, alloc);
    SelectionTakesWholeInodes(t, alloc, order, keep, cl);
    SelectionSound(Inventory(t, alloc), Contents(t), order, keep, cl);
  }

  lemma SelectionIsWhole(t: Tree, order: seq<Name>, keep: seq<Name>, cl: Classifier, alloc: Allocation)
    requires WellFormed(t) && Enumerates(order, t.names.Keys) && Prepared(t, order, keep, cl, alloc).Ok?
    ensures TakesWholeInodes(t, Prepared(t, order, keep, cl, alloc).value.selected.Keys)
  {
    hide Select, TakesWholeInodes;
    SelectionTakesWholeInodes(t, alloc, order, keep, cl);
  }

  /** The outer operation: prepare a plan and apply it at once. With nothing else touching the target and no unlink
      raising, the selection is gone and everything else is as it was. The bytes reported count each inode once, as
      it measured just before its last link went; they are the bytes promised where those measurements did not drift. */
  method PrepareAndApply(target: Target, order: seq<Name>, keep: seq<Name>, cl: Classifier, planSha: string,
                         authorization: string, first: Allocation, alloc: nat -> Allocation, faults: Faults)
    returns (plan: Result<Plan>, promised: nat, receipt: Option<Receipt>)
    requires WellFormed(target.Value()) && Enumerates(order, target.names.Keys)
    modifies target
    ensures plan == Prepared(old(target.Value()), order, keep, cl, first)
    ensures plan.Ok? <==> receipt.Some?
    ensures plan.Err? ==> target.Value() == old(target.Value())
    ensures plan.Ok? ==>
              var t, s, r := old(target.Value()), plan.value.selected.Keys, receipt.value;
              && s <= t.names.Keys
              && promised == SumValues(AllocationOf(t, s, first))
              && r.removedBytes == SumValues(BookedOf(t, r.removed, alloc))
              && (r.status == Complete <==> !FaultWithin(faults, |s|))
              && (r.status == Complete ==>
                    && target.Value() == Without(t, s)
                    && Members(r.removed) == s
                    && BookedOf(t, r.removed, alloc).Keys == AllocationOf(t, s, first).Keys
                    && (Steady(t, r.removed, first, alloc) ==> r.removedBytes == promised))
  {
    hide Without, Prepared, Approved, StoppingPoints, StoppingPoint, SumValues, AllocationOf, BookedOf, Members, FaultWithin,
      TakesWholeInodes, Steady, Select, Reviewed, WellFormed;
    ghost var t := target.Value();
    plan, promised := Prepare(target, order, keep, cl, first);
    if plan.Err? {
      return plan, 0, None;
    }
    PreparedIsReviewed(t, order, keep, cl, first, alloc(0));
    SelectionIsWhole(t, order, keep, cl, first);
    var run := new Transaction();
    var r := run.Apply(target, plan.value, Started(planSha, authorization), order, keep, cl, alloc, faults);
    if r.status == Complete {
      AllBooked(t, r.removed, alloc, first);
    }
    receipt := Some(r);
  }
}
