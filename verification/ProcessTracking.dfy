/** Process generations under PID reuse: registration, the descendant scan, and what a scan may call ended. */
module ProcessTracking {
  import opened Results

  type Pid = nat

  /** A birth is seconds and microseconds; a generation is a pid with its birth, and never comes back. */
  datatype Birth = Birth(seconds: nat, microseconds: nat)

  datatype Gen = Gen(pid: Pid, birth: Birth)

  datatype Proc = Proc(pid: Pid, birth: Birth, ppid: Pid, session: nat, pgid: nat)

  type Table = map<Pid, Proc>

  type Probe = Result<Option<Proc>>

  function GenOf(p: Proc): Gen {
    Gen(p.pid, p.birth)
  }

  // ----- the world -----

  /** Which generations run at which instant. */
  type World = (Gen, nat) -> bool

  ghost predicate Alive(w: World, g: Gen, t: nat) {
    w(g, t)
  }

  /** At most one generation has a pid at a time, and a generation that is gone stays gone. */
  ghost predicate Lawful(w: World) {
    && (forall g, h, t :: Alive(w, g, t) && Alive(w, h, t) && g.pid == h.pid ==> g == h)
    && (forall g, a, b, c :: a <= b <= c && Alive(w, g, a) && !Alive(w, g, b) ==> !Alive(w, g, c))
  }

  ghost predicate SeenWithin(w: World, g: Gen, from: nat, to: nat) {
    exists t: nat :: from <= t <= to && Alive(w, g, t)
  }

  /** Once seen running, later seen gone. */
  ghost predicate DeadBy(w: World, g: Gen, now: nat) {
    exists a: nat, b: nat :: a <= b <= now && Alive(w, g, a) && !Alive(w, g, b)
  }

  lemma DeadNotSeenLater(w: World, g: Gen, now: nat, from: nat, to: nat)
    requires Lawful(w) && DeadBy(w, g, now) && now <= from
    ensures !SeenWithin(w, g, from, to)
  {
  }

  lemma DeadLater(w: World, g: Gen, now: nat, later: nat)
    requires DeadBy(w, g, now) && now <= later
    ensures DeadBy(w, g, later)
  {
    var a: nat, b: nat :| a <= b <= now && Alive(w, g, a) && !Alive(w, g, b);
  }

  /** Every row of a native table was running while the table was read. The table need not be complete. */
  ghost predicate TableSound(w: World, table: Table, from: nat, to: nat) {
    forall p :: p in table ==> table[p].pid == p && SeenWithin(w, GenOf(table[p]), from, to)
  }

  ghost predicate Vacant(w: World, p: Pid, t: nat) {
    forall b :: !Alive(w, Gen(p, b), t)
  }

  /** An identity read tells who had the pid at one instant: nobody, or the generation it returns. */
  ghost predicate ProbeSound(w: World, p: Pid, r: Probe, from: nat, to: nat) {
    match r
    case Err(_) => true
    case Ok(None) => exists t: nat :: from <= t <= to && Vacant(w, p, t)
    case Ok(Some(row)) => row.pid == p && SeenWithin(w, GenOf(row), from, to)
  }

  /** An independent identity read that does not show the generation proves it ended. */
  lemma ProbeProvesEnd(w: World, g: Gen, r: Probe, seenTo: nat, from: nat, to: nat)
    requires Lawful(w) && SeenWithin(w, g, 0, seenTo) && seenTo <= from
    requires ProbeSound(w, g.pid, r, from, to) && r.Ok? && (r.value.None? || r.value.value.birth != g.birth)
    ensures DeadBy(w, g, to)
  {
    var a: nat :| 0 <= a <= seenTo && Alive(w, g, a);
    match r.value
    case None =>
      var t: nat :| from <= t <= to && Vacant(w, g.pid, t);
      assert !Alive(w, Gen(g.pid, g.birth), t);
      assert Gen(g.pid, g.birth) == g;
    case Some(row) =>
      var t: nat :| from <= t <= to && Alive(w, GenOf(row), t);
      assert GenOf(row).pid == g.pid && GenOf(row) != g;
      assert !Alive(w, g, t);
  }

  // ----- the descendant closure -----

  predicate Descends(table: Table, s: set<Pid>) {
    forall p :: p in table && table[p].ppid in s ==> p in s
  }

  function Children(table: Table, s: set<Pid>): set<Pid> {
    set p | p in table && table[p].ppid in s && p !in s
  }

  function Seeds(table: Table, known: Table, session: nat): set<Pid> {
    set p | p in table && ((p in known && table[p].birth == known[p].birth) || table[p].session == session)
  }

  /** The least set of table rows with the seeds in it that is closed under descendants. */
  ghost predicate LeastClosure(table: Table, seeds: set<Pid>, s: set<Pid>) {
    && seeds <= s <= table.Keys && Descends(table, s)
    && forall other: set<Pid> :: seeds <= other && Descends(table, other) ==> s <= other
  }

  /** A row that belongs to the operation by itself: of its session, or a generation known before. */
  predicate Anchored(table: Table, known: Table, session: nat, p: Pid) {
    p in table && (table[p].session == session || (p in known && known[p].birth == table[p].birth))
  }

  /** A way from a process through its parents, row by row, to one that belongs to the operation by itself. */
  ghost predicate Lineage(table: Table, known: Table, session: nat, path: seq<Pid>) {
    && path != []
    && (forall i :: 0 <= i < |path| ==> path[i] in table)
    && (forall i :: 0 <= i < |path| - 1 ==> table[path[i]].ppid == path[i + 1])
    && Anchored(table, known, session, path[|path| - 1])
  }

  ghost predicate Descendant(table: Table, known: Table, session: nat, p: Pid) {
    exists path :: Lineage(table, known, session, path) && path[0] == p
  }

  /** Exactly the processes with a lineage to the session or to a known generation. */
  ghost predicate Population(table: Table, known: Table, session: nat, live: set<Pid>) {
    forall p :: p in live <==> Descendant(table, known, session, p)
  }

  lemma LineageStep(table: Table, known: Table, session: nat, p: Pid)
    requires p in table && Descendant(table, known, session, table[p].ppid)
    ensures Descendant(table, known, session, p)
  {
    var path :| Lineage(table, known, session, path) && path[0] == table[p].ppid;
    var longer := [p] + path;
    assert forall i :: 0 <= i < |longer| - 1 ==> i > 0 ==> longer[i] == path[i - 1] && longer[i + 1] == path[i];
    assert Lineage(table, known, session, longer);
  }

  lemma {:induction false} LineageStays(table: Table, known: Table, session: nat, s: set<Pid>, path: seq<Pid>)
    requires Lineage(table, known, session, path) && Descends(table, s)
    requires forall p :: Anchored(table, known, session, p) ==> p in s
    ensures path[0] in s
    decreases |path|
  {
    if |path| > 1 {
      var rest := path[1..];
      assert forall i :: 0 <= i < |rest| ==> rest[i] == path[i + 1];
      LineageStays(table, known, session, s, rest);
    }
  }

  /** The least closure over the seeds is the population. */
  lemma ClosureIsPopulation(table: Table, known: Table, session: nat, live: set<Pid>)
    requires LeastClosure(table, Seeds(table, known, session), live)
    ensures Population(table, known, session, live)
  {
    hide Descendant;
    forall p ensures p in Seeds(table, known, session) <==> Anchored(table, known, session, p) {
    }
    forall p | Descendant(table, known, session, p) ensures p in live {
      Inherits(table, known, session, live, p);
    }
    var all := set p | p in table && Descendant(table, known, session, p);
    forall p | p in Seeds(table, known, session) ensures p in all {
      AnchorDescends(table, known, session, p);
    }
    forall p | p in table && table[p].ppid in all ensures p in all {
      LineageStep(table, known, session, p);
    }
    assert live <= all;
  }

  lemma Inherits(table: Table, known: Table, session: nat, s: set<Pid>, p: Pid)
    requires Descendant(table, known, session, p) && Descends(table, s)
    requires forall q :: Anchored(table, known, session, q) ==> q in s
    ensures p in s
  {
    var path :| Lineage(table, known, session, path) && path[0] == p;
    LineageStays(table, known, session, s, path);
  }

  lemma AnchorDescends(table: Table, known: Table, session: nat, p: Pid)
    requires Anchored(table, known, session, p)
    ensures Descendant(table, known, session, p)
  {
    assert Lineage(table, known, session, [p]);
  }

  /** Every process of the session is in the population, and so is every child of one that is. */
  lemma PopulationHolds(table: Table, known: Table, session: nat, live: set<Pid>)
    requires Population(table, known, session, live)
    ensures forall p :: p in table && table[p].session == session ==> p in live
    ensures forall p :: p in table && p in known && known[p].birth == table[p].birth ==> p in live
    ensures forall p :: p in table && table[p].ppid in live ==> p in live
  {
    hide Descendant;
    forall p | Anchored(table, known, session, p) ensures p in live {
      AnchorDescends(table, known, session, p);
    }
    forall p | p in table && table[p].ppid in live ensures p in live {
      LineageStep(table, known, session, p);
    }
  }

  method Closure(table: Table, seeds: set<Pid>) returns (live: set<Pid>)
    requires seeds <= table.Keys
    ensures LeastClosure(table, seeds, live)
  {
    live := seeds;
    while true
      invariant seeds <= live <= table.Keys
      invariant forall other: set<Pid> :: seeds <= other && Descends(table, other) ==> live <= other
      decreases |table.Keys - live|
    {
      var children := Children(table, live);
      if children == {} {
        break;
      }
      ghost var before := table.Keys - live;
      var c :| c in children;
      assert c in before;
      assert table.Keys - (live + children) < before;
      Smaller(table.Keys - (live + children), before);
      live := live + children;
    }
    forall p | p in table && table[p].ppid in live ensures p in live {
      assert p !in Children(table, live);
    }
  }

  lemma Smaller<T>(a: set<T>, b: set<T>)
    requires a < b
    ensures |a| < |b|
  {
    assert b == a + (b - a);
  }

  // ----- the tracker -----

  function Gens(rows: Table): set<Gen> {
    set p | p in rows :: Gen(p, rows[p].birth)
  }

  /** Setting a row whose pid has no other generation in the table adds that generation. */
  lemma GensUpdate(rows: Table, row: Proc)
    requires row.pid in rows ==> rows[row.pid].birth == row.birth
    ensures Gens(rows[row.pid := row]) == Gens(rows) + {GenOf(row)}
  {
    var after := rows[row.pid := row];
    forall g | g in Gens(rows) + {GenOf(row)} ensures g in Gens(after) {
      assert g.pid in after && after[g.pid].birth == g.birth;
    }
  }

  predicate SameBirth(rows: Table, p: Pid, b: Birth) {
    p in rows && rows[p].birth == b
  }

  lemma GensNone()
    ensures Gens(map[]) == {}
  {
  }

  lemma GensAll(rows: Table)
    ensures Gens(rows - rows.Keys) == {} && rows - {} == rows
  {
    assert rows - rows.Keys == map[];
  }

  lemma GensPeel(rows: Table, todo: set<Pid>, p: Pid)
    requires p in todo && todo <= rows.Keys && rows[p].pid == p
    ensures Gens(rows - (todo - {p})) == Gens(rows - todo) + {GenOf(rows[p])}
  {
    assert rows - (todo - {p}) == (rows - todo)[p := rows[p]];
    GensUpdate(rows - todo, rows[p]);
  }

  ghost predicate Noted(before: map<Gen, Proc>, after: map<Gen, Proc>, rows: Table) {
    after.Keys == before.Keys + Gens(rows)
  }

  lemma NotedOne(before: map<Gen, Proc>, after: map<Gen, Proc>, rows: Table, todo: set<Pid>, p: Pid)
    requires p in todo && todo <= rows.Keys && rows[p].pid == p && Noted(before, after, rows - todo)
    ensures Noted(before, after[GenOf(rows[p]) := rows[p]], rows - (todo - {p}))
  {
    GensPeel(rows, todo, p);
  }

  lemma NotedGrows(before: map<Gen, Proc>, after: map<Gen, Proc>, rows: Table)
    requires Noted(before, after, rows)
    ensures before.Keys <= after.Keys
  {
  }

  lemma NotedNone(before: map<Gen, Proc>, rows: Table)
    ensures Noted(before, before, rows - rows.Keys) && rows - {} == rows
  {
    GensAll(rows);
  }

  /** Replacing the live rows by newly scanned ones splits the old generations into kept and missing. */
  lemma GensSplit(live: Table, rows: Table)
    requires forall p :: p in live && p in rows ==> live[p].birth == rows[p].birth
    ensures Gens(live) <= Gens(live - rows.Keys) + Gens(rows)
    ensures Gens(live - rows.Keys) !! Gens(rows)
    ensures Gens(live - rows.Keys) <= Gens(live)
  {
    forall g | g in Gens(live) ensures g in Gens(live - rows.Keys) + Gens(rows) {
      assert g.pid in live && live[g.pid].birth == g.birth;
      if g.pid !in rows {
        assert g.pid in live - rows.Keys;
      }
    }
    forall g | g in Gens(live - rows.Keys) ensures g in Gens(live) && g !in Gens(rows) {
      assert g.pid in live && g.pid !in rows;
    }
  }

  const HISTORY_BOUND := 16384

  /** Rows are kept under their own pids. */
  ghost predicate Tidy(rows: Table) {
    forall p :: p in rows ==> rows[p].pid == p
  }

  datatype State = State(known: Table, history: map<Gen, Proc>, live: Table, ended: set<Gen>)

  /** History is the disjoint union of what ended and what is live, what ended is really dead, live generations are
      the known ones of their pids, and the root has never been rebound. */
  ghost predicate Sound(s: State, root: Gen, w: World, now: nat) {
    && s.history.Keys == s.ended + Gens(s.live)
    && s.ended !! Gens(s.live)
    && (forall g :: g in s.ended ==> DeadBy(w, g, now))
    && (forall g :: g in s.history ==> SeenWithin(w, g, 0, now))
    && (forall p :: p in s.live ==> s.live[p].pid == p && SameBirth(s.known, p, s.live[p].birth))
    && (forall p :: p in s.known ==> Gen(p, s.known[p].birth) in s.history)
    && SameBirth(s.known, root.pid, root.birth)
  }

  /** A known pid with another birth is a fault, unless the known generation ended and is not the root. */
  predicate Drifted(s: State, root: Gen, row: Proc) {
    row.pid in s.known && s.known[row.pid].birth != row.birth
    && (row.pid == root.pid || Gen(row.pid, s.known[row.pid].birth) !in s.ended)
  }

  lemma SeenLater(w: World, g: Gen, from: nat, to: nat, now: nat)
    requires SeenWithin(w, g, from, to) && to <= now
    ensures SeenWithin(w, g, 0, now)
  {
    var t: nat :| from <= t <= to && Alive(w, g, t);
  }

  lemma SoundLater(s: State, root: Gen, w: World, now: nat, later: nat)
    requires Sound(s, root, w, now) && now <= later
    ensures Sound(s, root, w, later)
  {
    forall g | g in s.ended ensures DeadBy(w, g, later) {
      DeadLater(w, g, now, later);
    }
    forall g | g in s.history ensures SeenWithin(w, g, 0, later) {
      SeenLater(w, g, 0, now, later);
    }
  }

  /** A row that passed validation and was seen running is not one of the ended generations, and agrees with the
      live generation of its pid if there is one; it never rebinds the root. */
  lemma Joins(s: State, root: Gen, row: Proc, w: World, now: nat, from: nat, to: nat)
    requires Lawful(w) && Sound(s, root, w, now) && now <= from
    requires !Drifted(s, root, row) && SeenWithin(w, GenOf(row), from, to)
    ensures GenOf(row) !in s.ended
    ensures row.pid in s.live ==> s.live[row.pid].birth == row.birth
    ensures row.pid == root.pid ==> row.birth == root.birth
  {
    if GenOf(row) in s.ended {
      DeadNotSeenLater(w, GenOf(row), now, from, to);
    }
    assert row.pid in s.live ==> Gen(row.pid, s.live[row.pid].birth) in Gens(s.live);
  }

  function Registered(s: State, row: Proc): State {
    State(s.known[row.pid := row], s.history[GenOf(row) := row], s.live[row.pid := row], s.ended)
  }

  lemma RegisteredSound(s: State, root: Gen, row: Proc, w: World, from: nat, to: nat)
    requires Lawful(w) && Sound(s, root, w, from) && from <= to
    requires !Drifted(s, root, row) && SeenWithin(w, GenOf(row), from, to)
    ensures Sound(Registered(s, row), root, w, to)
  {
    hide Lawful, Alive, SeenWithin, DeadBy, Gens;
    Joins(s, root, row, w, from, from, to);
    SoundLater(s, root, w, from, to);
    SeenLater(w, GenOf(row), from, to, to);
    GensUpdate(s.live, row);
  }

  predicate ShowsEnd(row: Proc, r: Probe) {
    r.Ok? && (r.value.None? || r.value.value.birth != row.birth)
  }

  lemma ErrShowsNothing(row: Proc, r: Probe)
    requires r.Err?
    ensures !ShowsEnd(row, r)
  {
  }

  /** What the identity reads of a scan must have shown for every live generation missing from the new rows. */
  ghost predicate ProvedMissing(missing: Table, probe: Pid -> Probe) {
    forall p :: p in missing ==> ShowsEnd(missing[p], probe(p))
  }

  ghost predicate Scanned(s: State, rows: Table, r: State) {
    && r.known == s.known + rows && r.live == rows
    && r.history.Keys == s.history.Keys + Gens(rows)
    && r.ended == s.ended + Gens(s.live - rows.Keys)
  }

  lemma ScannedEnds(s: State, root: Gen, rows: Table, probe: Pid -> Probe, w: World, t0: nat, t1: nat, t2: nat, g: Gen)
    requires Lawful(w) && Sound(s, root, w, t0) && t0 <= t1 <= t2 && g in Gens(s.live - rows.Keys)
    requires ProvedMissing(s.live - rows.Keys, probe) && ProbeSound(w, g.pid, probe(g.pid), t1, t2)
    ensures DeadBy(w, g, t2)
  {
    assert g.pid in s.live && g.pid !in rows && s.live[g.pid].birth == g.birth;
    assert g in Gens(s.live) && g in s.history;
    assert ShowsEnd((s.live - rows.Keys)[g.pid], probe(g.pid));
    ProbeProvesEnd(w, g, probe(g.pid), t0, t1, t2);
  }

  lemma RowsJoin(s: State, root: Gen, rows: Table, w: World, t0: nat, t1: nat, t2: nat)
    requires Lawful(w) && Sound(s, root, w, t0) && t0 <= t1 <= t2 && TableSound(w, rows, t0, t1)
    requires forall p :: p in rows ==> !Drifted(s, root, rows[p])
    ensures s.ended !! Gens(rows)
    ensures forall p :: p in s.live && p in rows ==> s.live[p].birth == rows[p].birth
    ensures root.pid in rows ==> rows[root.pid].birth == root.birth
    ensures forall g :: g in Gens(rows) ==> SeenWithin(w, g, 0, t2)
  {
    hide Lawful, Alive, SeenWithin, Sound, Drifted;
    forall p | p in rows
      ensures GenOf(rows[p]) !in s.ended && (p in s.live ==> s.live[p].birth == rows[p].birth)
      ensures p == root.pid ==> rows[p].birth == root.birth
      ensures SeenWithin(w, GenOf(rows[p]), 0, t2)
    {
      Joins(s, root, rows[p], w, t0, t0, t1);
      SeenLater(w, GenOf(rows[p]), t0, t1, t2);
    }
    assert forall g :: g in Gens(rows) ==> g == GenOf(rows[g.pid]);
  }

  lemma AllScannedEnd(s: State, root: Gen, rows: Table, probe: Pid -> Probe, w: World, t0: nat, t1: nat, t2: nat)
    requires Lawful(w) && Sound(s, root, w, t0) && t0 <= t1 <= t2
    requires ProvedMissing(s.live - rows.Keys, probe) && forall p :: ProbeSound(w, p, probe(p), t1, t2)
    ensures forall g :: g in Gens(s.live - rows.Keys) ==> DeadBy(w, g, t2)
  {
    hide Lawful, Alive, SeenWithin, Sound, DeadBy, ProbeSound, ProvedMissing, Gens;
    forall g | g in Gens(s.live - rows.Keys) ensures DeadBy(w, g, t2) {
      ScannedEnds(s, root, rows, probe, w, t0, t1, t2, g);
    }
  }

  lemma ScannedSound(s: State, root: Gen, rows: Table, r: State, probe: Pid -> Probe, w: World, t0: nat, t1: nat, t2: nat)
    requires Lawful(w) && Sound(s, root, w, t0) && t0 <= t1 <= t2
    requires TableSound(w, rows, t0, t1) && forall p :: ProbeSound(w, p, probe(p), t1, t2)
    requires forall p :: p in rows ==> !Drifted(s, root, rows[p])
    requires ProvedMissing(s.live - rows.Keys, probe) && Scanned(s, rows, r)
    ensures Sound(r, root, w, t2)
  {
    hide Lawful, Alive, SeenWithin, DeadBy, ProbeSound, ProvedMissing, Gens, Drifted;
    RowsJoin(s, root, rows, w, t0, t1, t2);
    AllScannedEnd(s, root, rows, probe, w, t0, t1, t2);
    GensSplit(s.live, rows);
    SoundLater(s, root, w, t0, t2);
    assert r.history.Keys == r.ended + Gens(rows);
    forall p | p in rows ensures Gen(p, rows[p].birth) in Gens(rows) {
      InGens(rows, p);
    }
  }

  lemma InGens(rows: Table, p: Pid)
    requires p in rows
    ensures Gen(p, rows[p].birth) in Gens(rows)
  {
  }

  /** What a drifted row and a generation not shown to have ended come to. */
  lemma Refused(s: State, root: Gen, table: Table, probe: Pid -> Probe)
    requires forall p :: p in table ==> table[p].pid == p
    ensures (exists p :: p in table && Drifted(s, root, table[p])) ==>
              exists p :: p in table && p in s.known && table[p].birth != s.known[p].birth
                          && (p == root.pid || Gen(p, s.known[p].birth) !in s.ended)
    ensures (exists p :: p in s.live && !ShowsEnd(s.live[p], probe(p))) ==>
              exists p :: p in s.live && (probe(p).Err? || (probe(p).value.Some?
                                                            && probe(p).value.value.birth == s.live[p].birth))
  {
    if p :| p in table && Drifted(s, root, table[p]) {
      assert table[p].pid == p && p in s.known;
    }
  }

  class Tracker {
    const root: Gen
    const session: nat
    var known: Table
    var history: map<Gen, Proc>
    var live: Table
    var ended: set<Gen>

    function Value(): State
      reads this
    {
      State(known, history, live, ended)
    }

    constructor (r: Proc, ghost w: World, ghost now: nat)
      requires SeenWithin(w, GenOf(r), 0, now)
      ensures Sound(Value(), root, w, now) && root == GenOf(r) && session == r.session
      ensures live == map[r.pid := r] && ended == {} && history.Keys == {GenOf(r)}
    {
      root, session := GenOf(r), r.session;
      known := map[r.pid := r];
      history := map[GenOf(r) := r];
      live := map[r.pid := r];
      ended := {};
      GensNone();
      GensUpdate(map[], r);
    }

    method Register(expected: Gen, probe: Probe, ghost w: World, ghost from: nat, ghost to: nat)
      returns (r: Result<()>)
      requires Lawful(w) && Tidy(live) && from <= to && ProbeSound(w, expected.pid, probe, from, to)
      modifies this
      ensures Tidy(live) && (Sound(old(Value()), root, w, from) ==> Sound(Value(), root, w, to))
      ensures r.Err? ==> Value() == old(Value())
      ensures r.Ok? <==>
        && probe.Ok? && probe.value.Some? && probe.value.value.birth == expected.birth
        && (expected.pid in old(known) && old(known)[expected.pid].birth != expected.birth ==>
              expected.pid != root.pid && Gen(expected.pid, old(known)[expected.pid].birth) in old(ended))
      ensures r.Ok? ==> GenOf(probe.value.value) == expected && Value() == Registered(old(Value()), probe.value.value)
    {
      hide Sound, Lawful;
      ghost var sound := Sound(Value(), root, w, from);
      if sound {
        SoundLater(Value(), root, w, from, to);
      }
      if probe.Err? {
        return Err(probe.error);
      }
      if probe.value.None? || probe.value.value.birth != expected.birth {
        return Err("Registered generation changed before launch acknowledgement");
      }
      var actual := probe.value.value;
      if Drifted(Value(), root, actual) {
        return Err("Known process generation drift");
      }
      if sound {
        RegisteredSound(Value(), root, actual, w, from, to);
      }
      known := known[actual.pid := actual];
      history := history[GenOf(actual) := actual];
      live := live[actual.pid := actual];
      r := Ok(());
    }

    /** Validate every scanned row and note it in the history; rows noted before a fault stay noted. */
    method Note(rows: Table) returns (r: Result<()>)
      requires forall p :: p in rows ==> rows[p].pid == p
      modifies this`history
      ensures r.Ok? ==> forall p :: p in rows ==> !Drifted(old(Value()), root, rows[p])
      ensures r.Ok? ==> Noted(old(history), history, rows)
      ensures r.Err? ==> exists p :: p in rows && Drifted(old(Value()), root, rows[p])
      ensures old(history).Keys <= history.Keys
    {
      hide Gens, Drifted, Noted;
      var start := Value();
      var todo := rows.Keys;
      NotedNone(history, rows);
      while todo != {}
        invariant todo <= rows.Keys
        invariant forall p :: p in rows && p !in todo ==> !Drifted(start, root, rows[p])
        invariant Noted(start.history, history, rows - todo)
        decreases |todo|
      {
        var p :| p in todo;
        NotedOne(start.history, history, rows, todo, p);
        NotedGrows(start.history, history, rows - todo);
        if Drifted(start, root, rows[p]) {
          return Err("Known process generation drift");
        }
        todo := todo - {p};
        history := history[GenOf(rows[p]) := rows[p]];
      }
      NotedGrows(start.history, history, rows);
      r := Ok(());
    }

    /** Only an independent identity read establishes that a missing generation ended. */
    method Missing(missing: Table, probe: Pid -> Probe) returns (r: Result<set<Gen>>)
      requires forall p :: p in missing ==> missing[p].pid == p
      ensures r.Ok? ==> r.value == ended + Gens(missing) && ProvedMissing(missing, probe)
      ensures r.Err? ==> exists p :: p in missing && !ShowsEnd(missing[p], probe(p))
    {
      hide Gens, ShowsEnd;
      var gone := ended;
      var todo := missing.Keys;
      GensAll(missing);
      while todo != {}
        invariant todo <= missing.Keys
        invariant forall p :: p in missing && p !in todo ==> ShowsEnd(missing[p], probe(p))
        invariant gone == ended + Gens(missing - todo)
        decreases |todo|
      {
        var p :| p in todo;
        GensPeel(missing, todo, p);
        var current := probe(p);
        if current.Err? {
          ErrShowsNothing(missing[p], current);
          return Err(current.error);
        }
        if !ShowsEnd(missing[p], current) {
          return Err("Known live generation missing from native population");
        }
        todo := todo - {p};
        gone := gone + {GenOf(missing[p])};
      }
      r := Ok(gone);
    }

    /** The rows of one scan and the generations they prove ended; history already has the rows. */
    method Survey(table: Table, probe: Pid -> Probe) returns (r: Result<(Table, set<Gen>)>)
      requires forall p :: p in table ==> table[p].pid == p
      requires Tidy(live)
      modifies this`history
      ensures r.Ok? ==> LeastClosure(table, Seeds(table, known, session), r.value.0.Keys)
      ensures r.Ok? ==> forall p :: p in r.value.0 ==> p in table && r.value.0[p] == table[p]
                                                       && !Drifted(old(Value()), root, table[p])
      ensures r.Ok? ==> r.value.1 == ended + Gens(live - r.value.0.Keys)
      ensures r.Ok? ==> ProvedMissing(live - r.value.0.Keys, probe)
      ensures r.Ok? ==> history.Keys == old(history).Keys + Gens(r.value.0) && |history| <= 16384
      ensures old(history).Keys <= history.Keys
      ensures r.Err? ==>
        || (exists p :: p in table && Drifted(old(Value()), root, table[p]))
        || |history| > 16384
        || (exists p :: p in live && !ShowsEnd(live[p], probe(p)))
    {
      hide LeastClosure, Gens, ProvedMissing, Drifted, ShowsEnd;
      var pids := Closure(table, Seeds(table, known, session));
      InTable(table, Seeds(table, known, session), pids);
      var rows := map p | p in pids :: table[p];
      var noted := Note(rows);
      if noted.Err? {
        return Err(noted.error);
      }
      if |history| > HISTORY_BOUND {
        return Err("Known producer population exceeds qualified bound");
      }
      var gone := Missing(live - rows.Keys, probe);
      if gone.Err? {
        return Err(gone.error);
      }
      assert rows.Keys == pids;
      r := Ok((rows, gone.value));
    }

    /** One scan: the least descendant-closed set of rows over the known generations and the session. */
    method Scan(table: Result<Table>, probe: Pid -> Probe, ghost w: World, ghost t0: nat, ghost t1: nat, ghost t2: nat)
      returns (r: Result<Table>)
      requires Lawful(w) && Tidy(live) && t0 <= t1 <= t2
      requires table.Ok? ==> TableSound(w, table.value, t0, t1)
      requires forall p :: ProbeSound(w, p, probe(p), t1, t2)
      modifies this
      ensures Tidy(live)
      ensures r.Ok? && Sound(old(Value()), root, w, t0) ==> Sound(Value(), root, w, t2)
      ensures r.Ok? ==> table.Ok? && r.value == live
                        && Population(table.value, old(known), session, live.Keys)
                        && (forall p :: p in table.value && table.value[p].session == session ==> p in live)
                        && (forall p :: p in table.value && p in old(known) && old(known)[p].birth == table.value[p].birth
                              ==> p in live)
                        && (forall p :: p in table.value && table.value[p].ppid in live ==> p in live)
                        && (forall p :: p in live ==> p in table.value && live[p] == table.value[p])
                        && Scanned(old(Value()), live, Value())
                        && |history| <= 16384
      ensures r.Err? ==> known == old(known) && live == old(live) && ended == old(ended)
                         && old(history).Keys <= history.Keys
      ensures r.Err? ==>
        || table.Err?
        || (exists p :: p in table.value && p in old(known) && table.value[p].birth != old(known)[p].birth
                        && (p == root.pid || Gen(p, old(known)[p].birth) !in old(ended)))
        || |history| > 16384
        || (exists p :: p in old(live) && (probe(p).Err? || (probe(p).value.Some?
                                                             && probe(p).value.value.birth == old(live)[p].birth)))
    {
      hide Sound, Lawful, LeastClosure, Seeds, Gens, ProvedMissing, ProbeSound, SeenWithin, Drifted, Population;
      if table.Err? {
        return Err(table.error);
      }
      ghost var before := Value();
      var survey := Survey(table.value, probe);
      if survey.Err? {
        Refused(before, root, table.value, probe);
        return Err(survey.error);
      }
      var rows := survey.value.0;
      ClosureIsPopulation(table.value, known, session, rows.Keys);
      PopulationHolds(table.value, known, session, rows.Keys);
      ended, live := survey.value.1, rows;
      known := known + rows;
      if Sound(before, root, w, t0) {
        ScannedSound(before, root, rows, Value(), probe, w, t0, t1, t2);
      }
      r := Ok(live);
    }

    lemma InTable(table: Table, seeds: set<Pid>, s: set<Pid>)
      requires LeastClosure(table, seeds, s)
      ensures s <= table.Keys
    {
    }
  }
}
