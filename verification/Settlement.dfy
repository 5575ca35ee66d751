/** The settlement observer: captured streams, scans, the lease and the deadline, up to a verdict. */
module Settlement {
  import opened Results
  import opened ProcessTracking

  datatype Stream = Stdout | Stderr

  /** One read of a ready stream; no data is its end. */
  datatype Read = Read(stream: Stream, data: string)

  /** What acknowledging a launch finds on disk, check by check. */
  datatype AckInput =
    | NoBinding
    | Binding(expected: Gen, probe: Probe, singleDescriptor: bool, canonical: bool, sameIdentity: bool,
              sameRecord: bool, lockFree: bool)

  /** The generation a binding names. */
  function Expects(ack: AckInput): set<Gen> {
    if ack.Binding? then {ack.expected} else {}
  }

  datatype LeaseInput = NamespaceDrift | Held | Free

  /** What one turn of the observation loop meets. The instants bracket its process reads. */
  datatype Round = Round(chunks: seq<Read>, now: int, table: Result<Table>, probe: Pid -> Probe, ack: AckInput,
                         lease: LeaseInput, exit: Option<int>, signals: seq<string>,
                         t0: nat, t1: nat, t2: nat, t3: nat, t4: nat)

  datatype Verdict = SETTLED | CACHE_RETAINED_SETTLEMENT_UNPROVED

  datatype Outcome = Outcome(status: Verdict, exit: Option<int>, live: Table, leaseReleased: bool,
                             acknowledged: bool, errors: seq<string>)

  const SCAN_INTERVAL_MS := 50

  // ----- logs -----

  /** The bytes of one stream, in order, from a sequence of bytes marked with their streams. */
  function Only(marked: seq<(Stream, char)>, s: Stream): string {
    if marked == [] then ""
    else Only(marked[..|marked| - 1], s) + (if Last(marked).0 == s then [Last(marked).1] else "")
  }

  function Last(marked: seq<(Stream, char)>): (Stream, char)
    requires marked != []
  {
    marked[|marked| - 1]
  }

  function Bytes(marked: seq<(Stream, char)>): string {
    if marked == [] then "" else Bytes(marked[..|marked| - 1]) + [Last(marked).1]
  }

  /** log is made of exactly the bytes of out and of err, each in its own order. */
  ghost predicate Interleaves(log: string, out: string, err: string) {
    exists marked :: Marks(marked, log, out, err)
  }

  ghost predicate Marks(marked: seq<(Stream, char)>, log: string, out: string, err: string) {
    Bytes(marked) == log && Only(marked, Stdout) == out && Only(marked, Stderr) == err
  }

  lemma {:induction false} MarksAppend(marked: seq<(Stream, char)>, log: string, out: string, err: string,
                                       s: Stream, data: string)
    returns (more: seq<(Stream, char)>)
    requires Marks(marked, log, out, err)
    ensures Marks(more, log + data, if s == Stdout then out + data else out, if s == Stderr then err + data else err)
    decreases |data|
  {
    if data == "" {
      more := marked;
      assert log + data == log && out + data == out && err + data == err;
    } else {
      var one := marked + [(s, data[0])];
      assert one[..|one| - 1] == marked;
      var d := [data[0]];
      assert out + "" == out && err + "" == err;
      more := MarksAppend(one, log + d, if s == Stdout then out + d else out, if s == Stderr then err + d else err,
                          s, data[1..]);
      assert d + data[1..] == data;
      assert (log + d) + data[1..] == log + data;
      assert (out + d) + data[1..] == out + data && (err + d) + data[1..] == err + data;
    }
  }

  lemma AppendInterleaves(log: string, out: string, err: string, s: Stream, data: string)
    requires Interleaves(log, out, err)
    ensures Interleaves(log + data, if s == Stdout then out + data else out, if s == Stderr then err + data else err)
  {
    var marked :| Marks(marked, log, out, err);
    var more := MarksAppend(marked, log, out, err, s, data);
  }

  // ----- assumptions about what a round reads -----

  /** The process reads of a round are true of the world, and rounds follow one another. */
  ghost predicate ReadsSound(w: World, r: Round, from: nat) {
    && from <= r.t0 <= r.t1 <= r.t2 <= r.t3 <= r.t4
    && (r.table.Ok? ==> TableSound(w, r.table.value, r.t0, r.t1))
    && (forall p :: ProbeSound(w, p, r.probe(p), r.t1, r.t2))
    && (r.ack.Binding? ==> ProbeSound(w, r.ack.expected.pid, r.ack.probe, r.t2, r.t3))
  }

  /** A generation that inherited the locked descriptor holds the lease while it runs: when the lease is free none of
      the generations bound so far is still running. */
  ghost predicate LeaseHonest(w: World, r: Round, bound: set<Gen>) {
    r.lease.Free? ==> forall g :: g in bound + Expects(r.ack) ==> !Alive(w, g, r.t4)
  }

  ghost predicate RoundsSound(w: World, rounds: seq<Round>, from: nat, bound: set<Gen>)
    decreases |rounds|
  {
    rounds != [] ==>
      && ReadsSound(w, rounds[0], from)
      && LeaseHonest(w, rounds[0], bound)
      && RoundsSound(w, rounds[1..], rounds[0].t4, bound + Expects(rounds[0].ack))
  }

  // ----- the observer -----

  /** What a scan round that ended without error saw together. */
  datatype Sighting = Sighting(live: Table, leaseFree: bool, round: Round)

  /** A sighting is what its own round read: every process of the session in its table was seen live, and the lease is
      called free only where it was. */
  ghost predicate Faithful(s: Sighting, session: nat) {
    && s.round.table.Ok?
    && (forall p :: p in s.round.table.value && s.round.table.value[p].session == session ==> p in s.live)
    && (forall p :: p in s.live ==> p in s.round.table.value && s.live[p] == s.round.table.value[p])
    && (s.leaseFree ==> s.round.lease.Free?)
  }

  lemma SeesScanned(round: Round, live: Table, session: nat)
    requires round.table.Ok?
    requires forall p :: p in round.table.value && round.table.value[p].session == session ==> p in live
    requires forall p :: p in live ==> p in round.table.value && live[p] == round.table.value[p]
    ensures Faithful(Sighting(live, false, round), session)
  {
  }

  /** A launch record that can be acknowledged. */
  predicate Passes(ack: AckInput) {
    && ack.Binding? && ack.singleDescriptor && ack.canonical && ack.sameIdentity && ack.sameRecord && !ack.lockFree
    && ack.probe.Ok? && ack.probe.value.Some? && ack.probe.value.value.birth == ack.expected.birth
  }

  /** A round that saw the lease free and read a table without any process of the session. */
  ghost predicate Quiet(round: Round, session: nat) {
    && round.lease.Free? && round.table.Ok?
    && forall p :: p in round.table.value ==> round.table.value[p].session != session
  }

  // ----- what was read -----

  function ChunksOf(rounds: seq<Round>): seq<Read> {
    if rounds == [] then [] else ChunksOf(rounds[..|rounds| - 1]) + rounds[|rounds| - 1].chunks
  }

  lemma ChunksSnoc(rounds: seq<Round>, round: Round)
    ensures ChunksOf(rounds + [round]) == ChunksOf(rounds) + round.chunks
  {
    assert (rounds + [round])[..|rounds|] == rounds;
  }

  /** The data read from one stream, up to its end. */
  function DataOf(chunks: seq<Read>, s: Stream): string {
    if chunks == [] then ""
    else if chunks[0].stream != s then DataOf(chunks[1..], s)
    else if chunks[0].data == "" then ""
    else chunks[0].data + DataOf(chunks[1..], s)
  }

  predicate Ends(chunks: seq<Read>, s: Stream) {
    Read(s, "") in chunks
  }

  lemma {:induction false} DataSnoc(chunks: seq<Read>, c: Read, s: Stream)
    ensures DataOf(chunks + [c], s) == DataOf(chunks, s) + if c.stream == s && !Ends(chunks, s) then c.data else ""
  {
    if chunks == [] {
      assert chunks + [c] == [c];
      assert [c][1..] == [];
      assert c.data + "" == c.data;
    } else {
      assert (chunks + [c])[1..] == chunks[1..] + [c];
      DataSnoc(chunks[1..], c, s);
      assert chunks == [chunks[0]] + chunks[1..];
    }
  }

  lemma EndsSnoc(chunks: seq<Read>, c: Read, s: Stream)
    ensures Ends(chunks + [c], s) <==> Ends(chunks, s) || c == Read(s, "")
  {
  }

  /** An identity read that shows the expected generation, which no generation still running has replaced. */
  predicate Registrable(s: State, root: Gen, expected: Gen, probe: Probe) {
    && probe.Ok? && probe.value.Some? && probe.value.value.birth == expected.birth
    && (expected.pid in s.known && s.known[expected.pid].birth != expected.birth ==>
          expected.pid != root.pid && Gen(expected.pid, s.known[expected.pid].birth) in s.ended)
  }

  class Observer {
    const tracker: Tracker
    const timeout: int
    var open: set<Stream>
    var log: string
    var out: string
    var err: string
    var errors: seq<string>
    var exited: Option<int>
    var lastScan: int
    var live: Table
    var acknowledged: bool
    var locked: bool
    var leaseOpen: bool
    ghost var bound: set<Gen>
    ghost var sightings: seq<Sighting>
    ghost var received: seq<Read>

    constructor (t: Tracker, timeoutMs: int)
      ensures tracker == t && timeout == timeoutMs && Fresh()
    {
      tracker, timeout := t, timeoutMs;
      open := {Stdout, Stderr};
      log, out, err, errors := "", "", "", [];
      exited, lastScan, live := None, 0, map[];
      acknowledged, locked, leaseOpen := false, true, false;
      bound, sightings, received := {}, [], [];
    }

    ghost predicate Fresh()
      reads this
    {
      && open == {Stdout, Stderr} && log == out == err == "" && errors == [] && exited == None
      && live == map[] && !acknowledged && locked && !leaseOpen && bound == {} && sightings == [] && received == []
    }

    /** Each stream's log is the data read from it, and a stream is open until its end was read. */
    ghost predicate Captured()
      reads this`out, this`err, this`open, this`received
    {
      && out == DataOf(received, Stdout) && err == DataOf(received, Stderr)
      && (Stdout in open <==> !Ends(received, Stdout)) && (Stderr in open <==> !Ends(received, Stderr))
    }

    /** Read every ready stream: data goes to the combined log and to the stream's own, and no data ends the stream. */
    method Drain(chunks: seq<Read>)
      requires Interleaves(log, out, err) && Captured()
      modifies this`open, this`log, this`out, this`err, this`received
      ensures Interleaves(log, out, err) && open <= old(open)
      ensures Captured() && received == old(received) + chunks
    {
      assert received + chunks[..0] == received;
      for i := 0 to |chunks|
        invariant Interleaves(log, out, err) && open <= old(open)
        invariant Captured() && received == old(received) + chunks[..i]
      {
        var read := chunks[i];
        DataSnoc(received, read, Stdout);
        DataSnoc(received, read, Stderr);
        EndsSnoc(received, read, Stdout);
        EndsSnoc(received, read, Stderr);
        assert old(received) + chunks[..i + 1] == (old(received) + chunks[..i]) + [read];
        received := received + [read];
        Take(read);
      }
      assert chunks[..|chunks|] == chunks;
    }

    /** One read of a stream that is still open. */
    method Take(read: Read)
      requires Interleaves(log, out, err)
      modifies this`open, this`log, this`out, this`err
      ensures Interleaves(log, out, err)
      ensures out == old(out) + if read.stream == Stdout && Stdout in old(open) then read.data else ""
      ensures err == old(err) + if read.stream == Stderr && Stderr in old(open) then read.data else ""
      ensures open == if read.data == "" then old(open) - {read.stream} else old(open)
    {
      if read.stream in open {
        if read.data != "" {
          AppendInterleaves(log, out, err, read.stream, read.data);
          log := log + read.data;
          match read.stream
          case Stdout => out := out + read.data;
          case Stderr => err := err + read.data;
        } else {
          open := open - {read.stream};
        }
      }
    }

    method Fault(error: string)
      modifies this`errors
      ensures errors == if error in old(errors) then old(errors) else old(errors) + [error]
    {
      if error !in errors {
        errors := errors + [error];
      }
    }

    /** Acknowledge a launch: register the inner generation, then demand that it holds the exact lease. */
    method Acknowledge(ack: AckInput, ghost w: World, ghost from: nat, ghost to: nat) returns (r: Result<bool>)
      requires Lawful(w) && Tidy(tracker.live) && from <= to
      requires ack.Binding? ==> ProbeSound(w, ack.expected.pid, ack.probe, from, to)
      modifies tracker, this`leaseOpen, this`bound
      ensures Tidy(tracker.live)
      ensures Sound(old(tracker.Value()), tracker.root, w, from) ==> Sound(tracker.Value(), tracker.root, w, to)
      ensures bound == old(bound) + Expects(ack)
      ensures Gens(tracker.live) <= Gens(old(tracker.live)) + bound
      ensures r == Ok(false) <==> ack.NoBinding?
      ensures r == Ok(true) <==>
        && ack.Binding? && ack.singleDescriptor && Registrable(old(tracker.Value()), tracker.root, ack.expected, ack.probe)
        && ack.canonical && ack.sameIdentity && ack.sameRecord && !ack.lockFree
      ensures r == Ok(true) ==> Passes(ack) && leaseOpen && ack.expected in tracker.history && ack.expected in Gens(tracker.live)
    {
      hide Sound, Lawful, ProbeSound, Gens, Registered, Tidy;
      if ack.NoBinding? {
        if Sound(tracker.Value(), tracker.root, w, from) {
          SoundLater(tracker.Value(), tracker.root, w, from, to);
        }
        return Ok(false);
      }
      bound := bound + {ack.expected};
      if !ack.singleDescriptor {
        if Sound(tracker.Value(), tracker.root, w, from) {
          SoundLater(tracker.Value(), tracker.root, w, from, to);
        }
        return Err("Watched custody requires its separately qualified outer owner");
      }
      ghost var before := tracker.Value();
      var registered := tracker.Register(ack.expected, ack.probe, w, from, to);
      if registered.Err? {
        return Err(registered.error);
      }
      RegisteredGens(before, ack.probe.value.value);
      RegisteredIn(before, ack.probe.value.value);
      r := OpenLease(ack);
    }

    /** Open the bound reservation and demand that it is the exact one, still held. */
    method OpenLease(ack: AckInput) returns (r: Result<bool>)
      requires ack.Binding?
      modifies this`leaseOpen
      ensures r.Ok? <==> ack.canonical && ack.sameIdentity && ack.sameRecord && !ack.lockFree
      ensures r.Ok? ==> r.value && leaseOpen
    {
      if !ack.canonical {
        return Err("Reservation namespace is not canonical and exact");
      }
      leaseOpen := true;
      if !ack.sameIdentity {
        return Err("Exact encompassing reservation identity changed");
      }
      if !ack.sameRecord {
        return Err("Exact encompassing reservation record changed");
      }
      if ack.lockFree {
        return Err("Expected live reservation was not held before launch");
      }
      r := Ok(true);
    }

    /** Whether the lease was released; nothing is released before a reservation was opened. */
    method Lease(input: LeaseInput) returns (r: Result<bool>)
      ensures r.Err? <==> leaseOpen && input.NamespaceDrift?
      ensures r.Ok? ==> (r.value <==> leaseOpen && input.Free?)
    {
      if !leaseOpen {
        return Ok(false);
      }
      if input.NamespaceDrift? {
        return Err("Reservation namespace drift; never infer natural release");
      }
      r := Ok(input.Free?);
    }

    /** While no error was recorded, live and locked are what one and the same scan round saw. */
    ghost predicate Paired()
      reads this
    {
      if sightings == [] then locked
      else
        var last := sightings[|sightings| - 1];
        last.live == live && last.leaseFree == !locked && Faithful(last, tracker.session)
    }

    /** A process the tracker holds live was in the last scan or was bound by the acknowledged launch; once the lease
        is seen free the bound ones are dead. */
    ghost predicate Accounted(w: World, now: nat)
      reads this, tracker
    {
      sightings != [] ==>
        && Gens(tracker.live) <= Gens(live) + bound
        && (!locked ==> forall g :: g in bound && g in tracker.history ==> DeadBy(w, g, now))
    }

    ghost predicate Inv(w: World, now: nat)
      reads this, tracker
    {
      && Tidy(tracker.live)
      && Interleaves(log, out, err) && Captured()
      && (errors == [] ==> Sound(tracker.Value(), tracker.root, w, now) && Paired() && Accounted(w, now))
    }

    /** One scan round: scan, acknowledge once, look at the lease; any error ends the round. */
    method ScanRound(round: Round, ghost w: World, ghost now: nat, ghost all: set<Gen>) returns (r: Result<()>)
      requires Lawful(w) && ReadsSound(w, round, now) && LeaseHonest(w, round, all) && bound <= all
      requires Tidy(tracker.live)
      modifies tracker, this`live, this`acknowledged, this`locked, this`leaseOpen, this`bound, this`sightings
      ensures Tidy(tracker.live)
      ensures bound <= all + Expects(round.ack)
      ensures r.Ok? && Sound(old(tracker.Value()), tracker.root, w, now)
              ==> Sound(tracker.Value(), tracker.root, w, round.t4) && Accounted(w, round.t4)
      ensures r.Ok? ==> sightings == old(sightings) + [Sighting(live, !locked, round)]
                        && Faithful(Sighting(live, !locked, round), tracker.session)
      ensures r.Ok? ==> (locked <==> !(leaseOpen && round.lease.Free?))
      ensures r.Err? ==> sightings == old(sightings)
      ensures old(acknowledged) ==> acknowledged
      ensures acknowledged && !old(acknowledged) ==> Passes(round.ack) && errors == []
      ensures r.Ok? && !old(acknowledged) && errors == [] ==> (acknowledged <==> round.ack.Binding?)
    {
      hide Passes, Registrable, Faithful, Sound, Lawful, Population, ProbeSound, TableSound, Gens, DeadBy, SeenWithin, Alive,
        LeastClosure, Seeds, Scanned;
      ghost var sound := Sound(tracker.Value(), tracker.root, w, now);
      if sound {
        SoundLater(tracker.Value(), tracker.root, w, now, round.t0);
      }
      var scanned := tracker.Scan(round.table, round.probe, w, round.t0, round.t1, round.t2);
      if scanned.Err? {
        return Err(scanned.error);
      }
      live := scanned.value;
      SeesScanned(round, live, tracker.session);
      if !acknowledged && errors == [] {
        var acknowledging := Acknowledge(round.ack, w, round.t2, round.t3);
        if acknowledging.Err? {
          return Err(acknowledging.error);
        }
        acknowledged := acknowledging.value;
      } else if sound {
        SoundLater(tracker.Value(), tracker.root, w, round.t2, round.t3);
      }
      r := LookAtLease(round, w, all, sound);
    }

    /** The last step of a scan round: pair what was scanned with what the lease shows. */
    method LookAtLease(round: Round, ghost w: World, ghost all: set<Gen>, ghost sound: bool) returns (r: Result<()>)
      requires LeaseHonest(w, round, all) && bound <= all + Expects(round.ack) && round.t3 <= round.t4
      requires sound ==> Sound(tracker.Value(), tracker.root, w, round.t3)
      requires Gens(tracker.live) <= Gens(live) + bound
      requires Faithful(Sighting(live, false, round), tracker.session)
      modifies this`locked, this`sightings
      ensures r.Ok? && sound ==> Sound(tracker.Value(), tracker.root, w, round.t4) && Accounted(w, round.t4)
      ensures r.Ok? ==> sightings == old(sightings) + [Sighting(live, !locked, round)]
                        && Faithful(Sighting(live, !locked, round), tracker.session)
      ensures r.Ok? ==> (locked <==> !(leaseOpen && round.lease.Free?))
      ensures r.Err? ==> sightings == old(sightings)
    {
      hide Sound, Gens, DeadBy, Alive;
      var lease := Lease(round.lease);
      if lease.Err? {
        return Err(lease.error);
      }
      locked := !lease.value;
      sightings := sightings + [Sighting(live, !locked, round)];
      if sound {
        if !locked {
          BoundDead(tracker.Value(), tracker.root, w, round, all, bound);
        }
        SoundLater(tracker.Value(), tracker.root, w, round.t3, round.t4);
      }
      r := Ok(());
    }

    /** One turn of the loop; done when the verdict can be given. */
    method Turn(round: Round, ghost w: World, ghost now: nat, ghost all: set<Gen>) returns (done: bool)
      requires Lawful(w) && ReadsSound(w, round, now) && LeaseHonest(w, round, all) && bound <= all
      requires Inv(w, now)
      modifies this, tracker
      ensures Inv(w, round.t4)
      ensures bound <= all + Expects(round.ack)
      ensures old(errors) <= errors && open <= old(open)
      ensures exited == if old(exited).None? && round.exit.Some? then Some(round.now) else old(exited)
      ensures exited.Some? && round.now - exited.value > timeout && !(live == map[] && !locked && open == {})
              ==> errors != []
      ensures done <==> round.exit.Some? && open == {} && ((live == map[] && !locked) || errors != [])
      ensures received == old(received) + round.chunks
      ensures old(errors) + round.signals <= errors
      ensures sightings == old(sightings)
              || exists s :: sightings == old(sightings) + [s] && s.round == round && Faithful(s, tracker.session)
      ensures round.now - old(lastScan) >= 50 && errors == [] ==> sightings != old(sightings)
      ensures lastScan == if round.now - old(lastScan) >= 50 then round.now else old(lastScan)
      ensures old(acknowledged) ==> acknowledged
      ensures acknowledged && !old(acknowledged) ==> Passes(round.ack)
    {
      hide Sound, Lawful, Interleaves, Captured, Passes, Faithful, Gens, DeadBy, ProbeSound, TableSound, SeenWithin, Alive;
      errors := errors + round.signals;
      Drain(round.chunks);
      ScanWhenDue(round, w, now, all);
      done := Judge(round);
    }

    /** A scan round when the last one is long enough ago; its error is recorded. */
    method ScanWhenDue(round: Round, ghost w: World, ghost now: nat, ghost all: set<Gen>)
      requires Lawful(w) && ReadsSound(w, round, now) && LeaseHonest(w, round, all) && bound <= all
      requires Inv(w, now)
      modifies tracker, this`live, this`acknowledged, this`locked, this`leaseOpen, this`bound, this`sightings, this`errors,
               this`lastScan
      ensures Inv(w, round.t4)
      ensures bound <= all + Expects(round.ack)
      ensures old(errors) <= errors
      ensures round.now - old(lastScan) < 50 ==>
                live == old(live) && acknowledged == old(acknowledged) && locked == old(locked) && errors == old(errors)
                && lastScan == old(lastScan)
      ensures round.now - old(lastScan) >= 50 ==> lastScan == round.now
      ensures sightings == old(sightings)
              || (sightings == old(sightings) + [Sighting(live, !locked, round)]
                  && Faithful(Sighting(live, !locked, round), tracker.session))
      ensures round.now - old(lastScan) >= 50 && errors == [] ==> sightings != old(sightings)
      ensures old(acknowledged) ==> acknowledged
      ensures acknowledged && !old(acknowledged) ==> Passes(round.ack)
    {
      hide Sound, Lawful, Interleaves, Captured, Passes, Faithful, Gens, DeadBy, ProbeSound, TableSound, SeenWithin, Alive;
      if round.now - lastScan >= SCAN_INTERVAL_MS {
        var scanned := ScanRound(round, w, now, all);
        if scanned.Err? {
          Fault(scanned.error);
        }
        lastScan := round.now;
      } else {
        if Sound(tracker.Value(), tracker.root, w, now) {
          SoundLater(tracker.Value(), tracker.root, w, now, round.t4);
        }
        forall g | DeadBy(w, g, now) ensures DeadBy(w, g, round.t4) {
          DeadLater(w, g, now, round.t4);
        }
      }
    }

    /** Note the exit, hold the deadline against it, and tell whether the loop may end. */
    method Judge(round: Round) returns (done: bool)
      modifies this`exited, this`errors
      ensures exited == if old(exited).None? && round.exit.Some? then Some(round.now) else old(exited)
      ensures old(errors) <= errors
      ensures exited.Some? && round.now - exited.value > timeout && !(live == map[] && !locked && open == {})
              ==> errors != []
      ensures !(exited.Some? && round.now - exited.value > timeout && !(live == map[] && !locked && open == {}))
              ==> errors == old(errors)
      ensures done <==> round.exit.Some? && open == {} && ((live == map[] && !locked) || errors != [])
    {
      if round.exit.Some? && exited.None? {
        exited := Some(round.now);
      }
      if exited.Some? && round.now - exited.value > timeout && !(live == map[] && !locked && open == {}) {
        Fault("Settlement deadline exceeded");
      }
      done := round.exit.Some? && open == {} && ((live == map[] && !locked) || errors != []);
    }

    /** Run turns until one is done; a run may also end, undecided, with the turns it was given. SETTLED rests on one round
        that read a process table without any process of the session, with nothing live in it and the lease free. */
    method Observe(rounds: seq<Round>, outside: bool, ghost w: World, ghost start: nat)
      returns (r: Option<Outcome>, ghost end: nat, ghost used: nat)
      requires Fresh() && Lawful(w) && Sound(tracker.Value(), tracker.root, w, start)
      requires RoundsSound(w, rounds, start, {})
      modifies this, tracker
      ensures start <= end && (errors == [] ==> Sound(tracker.Value(), tracker.root, w, end))
      ensures Interleaves(log, out, err)
      ensures used <= |rounds| && (r.None? ==> used == |rounds|)
      ensures out == DataOf(ChunksOf(rounds[..used]), Stdout) && err == DataOf(ChunksOf(rounds[..used]), Stderr)
      ensures r.Some? ==> (r.value.status == SETTLED <==> (acknowledged && r.value.exit == Some(0) && live == map[]
                                                           && !locked && errors == [] && outside))
      ensures r.Some? ==> r.value.live == live && r.value.leaseReleased == !locked && r.value.acknowledged == acknowledged
                          && r.value.errors == errors && used > 0 && r.value.exit == rounds[used - 1].exit
                          && r.value.exit.Some? && open == {}
      ensures acknowledged ==> exists k :: 0 <= k < used && Passes(rounds[k].ack)
      ensures r.Some? && r.value.status == SETTLED ==>
                && Ends(ChunksOf(rounds[..used]), Stdout) && Ends(ChunksOf(rounds[..used]), Stderr)
                && (exists k :: 0 <= k < used && Quiet(rounds[k], tracker.session))
                && forall g :: g in tracker.history ==> DeadBy(w, g, end)
    {
      hide Sound, Lawful, Interleaves, Gens, DeadBy, ReadsSound, LeaseHonest, Passes, Faithful, Captured, DataOf, ChunksOf, Ends;
      end, used := start, 0;
      NothingRead();
      assert rounds[..0] == [];
      NothingLogged();
      SoundTidy(tracker.Value(), tracker.root, w, start);
      ghost var all: set<Gen> := {};
      var i := 0;
      while i < |rounds|
        invariant 0 <= i <= |rounds| && start <= end
        invariant RoundsSound(w, rounds[i..], end, all) && bound <= all
        invariant Inv(w, end)
        invariant used == i && received == ChunksOf(rounds[..i])
        invariant forall s :: s in sightings ==> Faithful(s, tracker.session) && s.round in rounds[..i]
        invariant acknowledged ==> exists k :: 0 <= k < i && Passes(rounds[k].ack)
      {
        var round := rounds[i];
        assert rounds[i..][1..] == rounds[i + 1..];
        assert rounds[..i + 1] == rounds[..i] + [round];
        ChunksSnoc(rounds[..i], round);
        RoundOrder(w, round, end);
        var done := Turn(round, w, end, all);
        end := round.t4;
        all := all + Expects(round.ack);
        i, used := i + 1, i + 1;
        Logged();
        if done {
          var settled := acknowledged && round.exit == Some(0) && live == map[] && !locked && errors == [] && outside;
          if settled {
            AllDead(w, end);
            LastSighting(rounds, used);
          }
          r := Some(Outcome(if settled then SETTLED else CACHE_RETAINED_SETTLEMENT_UNPROVED, round.exit, live, !locked,
                            acknowledged, errors));
          return;
        }
      }
      assert rounds[..|rounds|] == rounds;
      Logged();
      r := None;
    }

    lemma NothingRead()
      requires Fresh()
      ensures Captured() && received == ChunksOf([]) && sightings == []
    {
    }

    /** What the logs hold of each stream. */
    lemma Logged()
      requires Captured()
      ensures out == DataOf(received, Stdout) && err == DataOf(received, Stderr)
      ensures open == {} ==> Ends(received, Stdout) && Ends(received, Stderr)
    {
    }

    /** Without errors, nothing live and the lease free come from one quiet round. */
    lemma LastSighting(rounds: seq<Round>, used: nat)
      requires used <= |rounds| && Paired() && live == map[] && !locked
      requires forall s :: s in sightings ==> Faithful(s, tracker.session) && s.round in rounds[..used]
      ensures exists k :: 0 <= k < used && Quiet(rounds[k], tracker.session)
    {
      var last := sightings[|sightings| - 1];
      assert last in sightings;
      var k :| 0 <= k < used && rounds[..used][k] == last.round;
      assert Quiet(rounds[k], tracker.session);
    }

    lemma NothingLogged()
      ensures Interleaves("", "", "")
    {
      assert Marks([], "", "", "");
    }

    lemma RoundOrder(w: World, round: Round, now: nat)
      requires ReadsSound(w, round, now)
      ensures now <= round.t4
    {
    }

    /** With nothing live in the last scan and the lease free, every generation ever known is dead. */
    lemma AllDead(w: World, now: nat)
      requires Inv(w, now) && errors == [] && live == map[] && !locked
      ensures forall g :: g in tracker.history ==> DeadBy(w, g, now)
    {
      GensNone();
    }
  }

  /** A registered generation that is not running when the lease is seen free is dead. */
  lemma BoundDead(s: State, root: Gen, w: World, round: Round, all: set<Gen>, bound: set<Gen>)
    requires Sound(s, root, w, round.t3) && round.t3 <= round.t4 && LeaseHonest(w, round, all) && round.lease.Free?
    requires bound <= all + Expects(round.ack)
    ensures forall g :: g in bound && g in s.history ==> DeadBy(w, g, round.t4)
  {
    forall g | g in bound && g in s.history ensures DeadBy(w, g, round.t4) {
      var t: nat :| t <= round.t3 && Alive(w, g, t);
      assert !Alive(w, g, round.t4);
    }
  }

  lemma SoundTidy(s: State, root: Gen, w: World, now: nat)
    requires Sound(s, root, w, now)
    ensures Tidy(s.live)
  {
  }

  lemma RegisteredIn(s: State, row: Proc)
    ensures GenOf(row) in Registered(s, row).history && GenOf(row) in Gens(Registered(s, row).live)
  {
    assert row.pid in Registered(s, row).live;
  }

  lemma RegisteredGens(s: State, row: Proc)
    ensures Gens(Registered(s, row).live) <= Gens(s.live) + {GenOf(row)}
  {
    forall g | g in Gens(s.live[row.pid := row]) ensures g in Gens(s.live) + {GenOf(row)} {
      assert g.pid in s.live[row.pid := row];
    }
  }
}
