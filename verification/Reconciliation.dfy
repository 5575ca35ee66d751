/** Reading back an interrupted retirement: the journal up to its last whole line, and each selected name. */
module Reconciliation {
  import opened Results
  import opened CacheTree
  import opened PayloadSelection
  import opened Retirement

  /** The JSON text of an event, and its reading. */
  datatype Codec = Codec(encode: Event -> string, decode: string -> Option<Event>)

  /** A record is one line that reads back as itself. */
  ghost predicate Faithful(c: Codec) {
    forall e :: '\n' !in c.encode(e) && c.decode(c.encode(e) + "\n") == Some(e)
  }

  function JournalText(c: Codec, events: seq<Event>): string {
    if events == [] then "" else c.encode(events[0]) + "\n" + JournalText(c, events[1..])
  }

  datatype Reading = Reading(events: seq<Event>, torn: bool)

  function FirstNewline(text: string): (i: nat)
    ensures i <= |text| && '\n' !in text[..i] && (i < |text| ==> text[i] == '\n')
  {
    if text == "" || text[0] == '\n' then 0 else 1 + FirstNewline(text[1..])
  }

  /** Whole lines are decoded in order; a last line without its newline is torn and ignored. */
  function ReadJournal(c: Codec, text: string): Result<Reading> {
    var i := FirstNewline(text);
    if text == "" then Ok(Reading([], false))
    else if i == |text| then Ok(Reading([], true))
    else if c.decode(text[..i + 1]).None? then Err("JSONDecodeError")
    else
      var rest :- ReadJournal(c, text[i + 1..]);
      Ok(rest.(events := [c.decode(text[..i + 1]).value] + rest.events))
  }

  datatype PathState = ABSENT | ORIGINAL_CONTENT | CHANGED_HOLD

  datatype Report = Report(paths: map<Name, PathState>, incomplete: bool)

  function Classify(t: Tree, n: Name, expected: Entry): PathState {
    if n !in t.names then ABSENT
    else if t.names[n] in t.inodes && t.inodes[t.names[n]].ftype == Regular && t.names[n] == expected.row.id
            && t.inodes[t.names[n]].content == expected.sha then ORIGINAL_CONTENT
    else CHANGED_HOLD
  }

  lemma ClassifiedAs(t: Tree, n: Name, expected: Entry)
    ensures Classify(t, n, expected) == ABSENT <==> n !in t.names
    ensures Classify(t, n, expected) == ORIGINAL_CONTENT <==>
            && n in t.names && t.names[n] in t.inodes && t.inodes[t.names[n]].ftype == Regular
            && t.names[n] == expected.row.id && t.inodes[t.names[n]].content == expected.sha
  {
  }

  predicate Binds(events: seq<Event>, planSha: string) {
    events != [] && events[0].Started? && events[0].planSha == planSha
  }

  function Reconciled(c: Codec, plan: Plan, planSha: string, text: string, t: Tree): Result<Report> {
    var reading :- ReadJournal(c, text);
    if !Binds(reading.events, planSha) then Err("Journal does not bind the exact plan")
    else Ok(Report(map n | n in plan.selected :: Classify(t, n, plan.selected[n]), reading.torn))
  }

  function Prepend(events: seq<Event>, r: Result<Reading>): Result<Reading> {
    match r
    case Err(e) => Err(e)
    case Ok(tail) => Ok(Reading(events + tail.events, tail.torn))
  }

  method ReadEvents(c: Codec, text: string) returns (r: Result<Reading>)
    ensures r == ReadJournal(c, text)
  {
    var events: seq<Event> := [];
    var rest := text;
    PrependNone(ReadJournal(c, text));
    while rest != ""
      invariant ReadJournal(c, text) == Prepend(events, ReadJournal(c, rest))
      decreases |rest|
    {
      var i := FirstNewline(rest);
      if i == |rest| {
        assert events + [] == events;
        return Ok(Reading(events, true));
      }
      var record := c.decode(rest[..i + 1]);
      if record.None? {
        return Err("JSONDecodeError");
      }
      PrependOne(events, record.value, ReadJournal(c, rest[i + 1..]));
      events := events + [record.value];
      rest := rest[i + 1..];
    }
    assert events + [] == events;
    r := Ok(Reading(events, false));
  }

  lemma PrependNone(r: Result<Reading>)
    ensures Prepend([], r) == r
  {
    if r.Ok? {
      assert [] + r.value.events == r.value.events;
    }
  }

  lemma PrependOne(events: seq<Event>, e: Event, r: Result<Reading>)
    ensures Prepend(events, Prepend([e], r)) == Prepend(events + [e], r)
  {
    if r.Ok? {
      assert events + ([e] + r.value.events) == (events + [e]) + r.value.events;
    }
  }

  /** Every selected name is absent, or still the regular file of the plan with its inode and content, or on hold. */
  ghost predicate Sorted(paths: map<Name, PathState>, plan: Plan, t: Tree) {
    && paths.Keys == plan.selected.Keys
    && forall n :: n in plan.selected ==>
         && (paths[n] == ABSENT <==> n !in t.names)
         && (paths[n] == ORIGINAL_CONTENT <==>
               && n in t.names && t.names[n] in t.inodes
               && t.inodes[t.names[n]].ftype == Regular
               && t.names[n] == plan.selected[n].row.id
               && t.inodes[t.names[n]].content == plan.selected[n].sha)
  }

  lemma AllSorted(plan: Plan, t: Tree, paths: map<Name, PathState>)
    requires paths.Keys == plan.selected.Keys && forall n :: n in paths ==> paths[n] == Classify(t, n, plan.selected[n])
    ensures Sorted(paths, plan, t)
  {
    hide Classify;
    forall n | n in plan.selected
      ensures paths[n] == ABSENT <==> n !in t.names
      ensures paths[n] == ORIGINAL_CONTENT <==>
              && n in t.names && t.names[n] in t.inodes && t.inodes[t.names[n]].ftype == Regular
              && t.names[n] == plan.selected[n].row.id && t.inodes[t.names[n]].content == plan.selected[n].sha
    {
      ClassifiedAs(t, n, plan.selected[n]);
    }
  }

  /** The tree is only looked at: whatever became of it, every selected name is sorted. A journal is refused unless its
      whole lines are records and the first of them starts the plan. */
  method Reconcile(c: Codec, plan: Plan, planSha: string, text: string, t: Tree) returns (r: Result<Report>)
    ensures r == Reconciled(c, plan, planSha, text, t)
    ensures r.Ok? ==> Sorted(r.value.paths, plan, t)
    ensures r.Ok? ==> ReadJournal(c, text).Ok? && r.value.incomplete == ReadJournal(c, text).value.torn
    ensures r.Ok? <==> ReadJournal(c, text).Ok? && ReadJournal(c, text).value.events != []
                       && var first := ReadJournal(c, text).value.events[0]; first.Started? && first.planSha == planSha
  {
    hide ReadJournal, Classify, Sorted;
    var reading := ReadEvents(c, text);
    if reading.Err? {
      return Err(reading.error);
    }
    if !Binds(reading.value.events, planSha) {
      return Err("Journal does not bind the exact plan");
    }
    var paths: map<Name, PathState> := map[];
    var todo := plan.selected.Keys;
    while todo != {}
      invariant todo <= plan.selected.Keys
      invariant paths.Keys == plan.selected.Keys - todo
      invariant forall n :: n in paths ==> paths[n] == Classify(t, n, plan.selected[n])
      decreases |todo|
    {
      var n :| n in todo;
      todo := todo - {n};
      paths := paths[n := Classify(t, n, plan.selected[n])];
    }
    assert paths == map n | n in plan.selected :: Classify(t, n, plan.selected[n]);
    AllSorted(plan, t, paths);
    r := Ok(Report(paths, reading.value.torn));
  }

  lemma {:induction false} FirstNewlineOf(a: string, b: string)
    requires '\n' !in a
    ensures FirstNewline(a + "\n" + b) == |a|
  {
    if a != "" {
      assert (a + "\n" + b)[1..] == a[1..] + "\n" + b;
      FirstNewlineOf(a[1..], b);
    }
  }

  lemma NoNewline(text: string)
    requires '\n' !in text
    ensures FirstNewline(text) == |text|
  {
  }

  /** A whole line that is no record is refused wherever it stands. */
  lemma {:induction false} StrangeLine(c: Codec, events: seq<Event>, line: string, rest: string)
    requires Faithful(c) && '\n' !in line && c.decode(line + "\n").None?
    ensures ReadJournal(c, JournalText(c, events) + line + "\n" + rest).Err?
    decreases |events|
  {
    var text := JournalText(c, events) + line + "\n" + rest;
    if events == [] {
      assert text == line + "\n" + rest;
      FirstNewlineOf(line, rest);
      assert text[..|line| + 1] == line + "\n";
    } else {
      var first, tail := c.encode(events[0]), JournalText(c, events[1..]) + line + "\n" + rest;
      assert '\n' !in first && c.decode(first + "\n") == Some(events[0]);
      assert text == first + "\n" + tail;
      FirstNewlineOf(first, tail);
      assert text[..|first| + 1] == first + "\n" && text[|first| + 1..] == tail;
      StrangeLine(c, events[1..], line, rest);
    }
  }

  /** Reading behind one whole record. */
  lemma ReadsRecord(c: Codec, e: Event, rest: string)
    requires Faithful(c)
    ensures ReadJournal(c, c.encode(e) + "\n" + rest) == Prepend([e], ReadJournal(c, rest))
    ensures forall events :: JournalText(c, [e] + events) == c.encode(e) + "\n" + JournalText(c, events)
  {
    var first := c.encode(e);
    assert '\n' !in first && c.decode(first + "\n") == Some(e);
    var text := first + "\n" + rest;
    FirstNewlineOf(first, rest);
    assert text[..|first| + 1] == first + "\n" && text[|first| + 1..] == rest;
    forall events ensures JournalText(c, [e] + events) == first + "\n" + JournalText(c, events) {
      assert ([e] + events)[1..] == events;
    }
  }

  lemma CutWithin(c: Codec, e: Event, rest: string, text: string)
    requires Faithful(c) && text <= c.encode(e) + "\n" + rest && |text| <= |c.encode(e)| && text != ""
    ensures ReadJournal(c, text) == Ok(Reading([], true)) && '\n' !in text
  {
    var whole := c.encode(e) + "\n" + rest;
    assert text == whole[..|text|] == c.encode(e)[..|text|];
    NoNewline(text);
  }

  lemma CutBehind(first: string, tail: string, text: string)
    requires text <= first + "\n" + tail && |first| < |text|
    ensures text == first + "\n" + text[|first| + 1..] && text[|first| + 1..] <= tail
  {
    var whole := first + "\n" + tail;
    assert text == whole[..|text|];
  }

  /** What was read is a prefix of the events, and its records are the whole lines of the text. */
  ghost predicate ReadsCut(c: Codec, events: seq<Event>, text: string, r: Reading) {
    && r.events <= events
    && JournalText(c, r.events) <= text && '\n' !in text[|JournalText(c, r.events)|..]
    && (r.torn <==> text != "" && text[|text| - 1] != '\n')
  }

  lemma CutStep(c: Codec, e: Event, events: seq<Event>, rest: string, r: Reading)
    requires Faithful(c) && ReadsCut(c, events, rest, r)
    ensures ReadsCut(c, [e] + events, c.encode(e) + "\n" + rest, Reading([e] + r.events, r.torn))
  {
    hide ReadJournal, JournalText, Faithful;
    var text, whole := c.encode(e) + "\n" + rest, JournalText(c, r.events);
    ReadsRecord(c, e, rest);
    assert JournalText(c, [e] + r.events) == c.encode(e) + "\n" + whole;
    assert text[|c.encode(e) + "\n" + whole|..] == rest[|whole|..];
    assert rest != "" ==> text[|text| - 1] == rest[|rest| - 1];
  }

  /** Any cut of a journal, between records or inside one, reads as a prefix of its events; it is torn exactly when
      the cut does not fall behind a newline. */
  lemma {:induction false} CutReads(c: Codec, events: seq<Event>, text: string)
    requires Faithful(c) && text <= JournalText(c, events)
    ensures ReadJournal(c, text).Ok? && ReadsCut(c, events, text, ReadJournal(c, text).value)
    ensures events != [] && |c.encode(events[0])| < |text| ==> ReadJournal(c, text).value.events != []
    decreases |events|
  {
    EmptyJournal(c);
    if events != [] && text != "" {
      hide ReadJournal, JournalText, Faithful, ReadsCut;
      var e, first := events[0], c.encode(events[0]);
      var tail := JournalText(c, events[1..]);
      assert events == [e] + events[1..];
      ReadsRecord(c, e, tail);
      if |text| <= |first| {
        CutWithin(c, e, tail, text);
        NothingRead(c, events, text);
      } else {
        var rest := text[|first| + 1..];
        CutBehind(first, tail, text);
        CutReads(c, events[1..], rest);
        ReadsRecord(c, e, rest);
        CutStep(c, e, events[1..], rest, ReadJournal(c, rest).value);
      }
    }
  }

  lemma NothingRead(c: Codec, events: seq<Event>, text: string)
    requires text != "" && '\n' !in text
    ensures ReadsCut(c, events, text, Reading([], true))
  {
  }

  lemma EmptyJournal(c: Codec)
    ensures JournalText(c, []) == ""
  {
  }

  /** Wherever apply stops and wherever its journal is cut behind the first record, even inside one, reconciliation
      without interference succeeds and tells exactly the unlinked names from the untouched ones. */
  lemma ReconcileAfterStop(t: Tree, plan: Plan, alloc: Allocation, start: Event, p: Snapshot, next: seq<Event>,
                           c: Codec, text: string)
    requires WellFormed(t) && Faithful(c) && start.Started?
    requires Expected(t, plan.selected, alloc) && StoppingPoint(t, plan.selected.Keys, start, p)
    requires text <= JournalText(c, p.journal + next) && |c.encode(start)| < |text|
    ensures var r := Reconciled(c, plan, start.planSha, text, p.tree);
            && r.Ok? && r.value.paths.Keys == plan.selected.Keys
            && (r.value.incomplete <==> text[|text| - 1] != '\n')
            && (forall n :: n in plan.selected ==>
                  r.value.paths[n] == if n in Absent(t, p.tree) then ABSENT else ORIGINAL_CONTENT)
  {
    hide Taken, Links, Without;
    CutReads(c, p.journal + next, text);
    var reading := ReadJournal(c, text).value;
    assert reading.events[0] == (p.journal + next)[0] == start;
    forall n | n in plan.selected
      ensures Classify(p.tree, n, plan.selected[n]) == if n in Absent(t, p.tree) then ABSENT else ORIGINAL_CONTENT
    {
      if n !in Absent(t, p.tree) {
        StillLinked(t, Absent(t, p.tree), n);
      }
    }
  }
}
