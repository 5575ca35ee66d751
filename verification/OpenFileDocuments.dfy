/** The documents an lsof listing stands for, their printing, and the agreement of the reader with both. */
module OpenFileDocuments {
  import opened Results
  import opened OpenFileRecords

  /** A file record: its descriptor and its further fields in the order they are listed. */
  datatype FileDoc = FileDoc(descriptor: string, fields: seq<(char, string)>)

  datatype ProcessDoc = ProcessDoc(pid: string, command: string, files: seq<FileDoc>)

  type Listing = seq<ProcessDoc>

  // ----- printing -----

  function PrintFields(fields: seq<(char, string)>): seq<string> {
    if fields == [] then [] else PrintFields(fields[..|fields| - 1]) + [FieldLine(fields[|fields| - 1])]
  }

  function FieldLine(f: (char, string)): string {
    [f.0] + f.1
  }

  function PrintFile(f: FileDoc): seq<string> {
    ["f" + f.descriptor] + PrintFields(f.fields)
  }

  function PrintFiles(files: seq<FileDoc>): seq<string> {
    if files == [] then [] else PrintFiles(files[..|files| - 1]) + PrintFile(files[|files| - 1])
  }

  function PrintProcess(p: ProcessDoc): seq<string> {
    ["p" + p.pid, "c" + p.command] + PrintFiles(p.files)
  }

  function Print(ps: Listing): seq<string> {
    if ps == [] then [] else Print(ps[..|ps| - 1]) + PrintProcess(ps[|ps| - 1])
  }

  // ----- what a document says -----

  function FieldMap(fields: seq<(char, string)>): Fields {
    if fields == [] then map[]
    else FieldMap(fields[..|fields| - 1])[fields[|fields| - 1].0 := fields[|fields| - 1].1]
  }

  function RecordOf(f: FileDoc): Fields {
    map['f' := f.descriptor] + FieldMap(f.fields)
  }

  predicate DistinctFields(fields: seq<(char, string)>) {
    && (forall i :: 0 <= i < |fields| ==> fields[i].0 in {'t', 'D', 'i', 'n'})
    && (forall i, j :: 0 <= i < j < |fields| ==> fields[i].0 != fields[j].0)
  }

  predicate GoodFile(f: FileDoc) {
    DistinctFields(f.fields) && Admissible(RecordOf(f))
  }

  /** Two records of one process clash when they repeat a numeric descriptor or each other, thread directories aside. */
  predicate Clash(darwin: bool, f: FileDoc, g: FileDoc)
    requires GoodFile(f) && GoodFile(g)
  {
    (RecordOf(f) == RecordOf(g) && !ThreadDirectory(darwin, RecordOf(g)))
    || (Digits(g.descriptor) && f.descriptor == g.descriptor)
  }

  predicate GoodFiles(darwin: bool, files: seq<FileDoc>) {
    && (forall i :: 0 <= i < |files| ==> GoodFile(files[i]))
    && (forall i, j :: 0 <= i < j < |files| ==> !Clash(darwin, files[i], files[j]))
  }

  /** Every process has a command and a non-empty block, and no pid is repeated. */
  predicate GoodListing(darwin: bool, ps: Listing) {
    && (forall i :: 0 <= i < |ps| ==> Positive(ps[i].pid) && ps[i].command != "" && ps[i].files != []
                                      && GoodFiles(darwin, ps[i].files))
    && (forall i, j :: 0 <= i < j < |ps| ==> ps[i].pid != ps[j].pid)
  }

  function RecordsOf(pid: string, files: seq<FileDoc>): seq<Record>
    requires Positive(pid)
  {
    if files == [] then []
    else RecordsOf(pid, files[..|files| - 1]) + [Record(RecordOf(files[|files| - 1]), Decimal(pid))]
  }

  function Records(ps: Listing): seq<Record>
    requires forall i :: 0 <= i < |ps| ==> Positive(ps[i].pid)
  {
    if ps == [] then []
    else Records(ps[..|ps| - 1]) + RecordsOf(ps[|ps| - 1].pid, ps[|ps| - 1].files)
  }

  // ----- the state after a document -----

  function Pids(ps: Listing): set<string> {
    set i | 0 <= i < |ps| :: ps[i].pid
  }

  function SeenRecords(pid: string, files: seq<FileDoc>): set<(string, Fields)> {
    set i | 0 <= i < |files| :: (pid, RecordOf(files[i]))
  }

  function SeenDescriptors(pid: string, files: seq<FileDoc>): set<(string, string)> {
    set i | 0 <= i < |files| :: (pid, files[i].descriptor)
  }

  function AllRecords(ps: Listing): set<(string, Fields)> {
    if ps == [] then {} else AllRecords(ps[..|ps| - 1]) + SeenRecords(ps[|ps| - 1].pid, ps[|ps| - 1].files)
  }

  function AllDescriptors(ps: Listing): set<(string, string)> {
    if ps == [] then {} else AllDescriptors(ps[..|ps| - 1]) + SeenDescriptors(ps[|ps| - 1].pid, ps[|ps| - 1].files)
  }

  /** A listing in progress: whole processes, then perhaps one more with its pid, its command, whole files and an
      open file. */
  datatype Progress =
    | Between(done: Listing)
    | Named(done: Listing, pid: string)
    | Listed(done: Listing, pid: string, command: string, files: seq<FileDoc>)
    | Open(done: Listing, pid: string, command: string, files: seq<FileDoc>, open: FileDoc)

  function PrintProgress(p: Progress): seq<string> {
    match p
    case Between(done) => Print(done)
    case Named(done, pid) => Print(done) + ["p" + pid]
    case Listed(done, pid, command, files) => Print(done) + PrintProcess(ProcessDoc(pid, command, files))
    case Open(done, pid, command, files, open) =>
      Print(done) + PrintProcess(ProcessDoc(pid, command, files)) + PrintFile(open)
  }

  predicate GoodProgress(darwin: bool, p: Progress) {
    && GoodListing(darwin, p.done)
    && (p.Between? ==> p.done == [])
    && (!p.Between? ==> Positive(p.pid) && p.pid !in Pids(p.done))
    && (p.Listed? || p.Open? ==> p.command != "" && GoodFiles(darwin, p.files))
    && (p.Open? ==> DistinctFields(p.open.fields))
  }

  function StateOf(darwin: bool, p: Progress): (s: State)
    requires GoodProgress(darwin, p)
    ensures Numbered(s)
  {
    match p
    case Between(done) => INITIAL
    case Named(done, pid) =>
      State(Records(done), map['p' := pid], map[], 0, Pids(done) + {pid}, AllRecords(done), AllDescriptors(done))
    case Listed(done, pid, command, files) => ListedState(done, pid, command, files)
    case Open(done, pid, command, files, open) => ListedState(done, pid, command, files).(record := RecordOf(open))
  }

  function ListedState(done: Listing, pid: string, command: string, files: seq<FileDoc>): State
    requires forall i :: 0 <= i < |done| ==> Positive(done[i].pid)
    requires Positive(pid)
  {
    State(Records(done) + RecordsOf(pid, files), map['p' := pid, 'c' := command], map[], |files|, Pids(done) + {pid},
          AllRecords(done) + SeenRecords(pid, files), AllDescriptors(done) + SeenDescriptors(pid, files))
  }

  // ----- reading follows printing -----

  lemma {:induction false} ForeignPid(ps: Listing, pid: string)
    requires pid !in Pids(ps)
    ensures forall m :: (pid, m) !in AllRecords(ps)
    ensures forall d :: (pid, d) !in AllDescriptors(ps)
  {
    if ps != [] {
      PidsSplit(ps);
      ForeignPid(ps[..|ps| - 1], pid);
    }
  }

  lemma PidsSplit(ps: Listing)
    requires ps != []
    ensures Pids(ps) == Pids(ps[..|ps| - 1]) + {ps[|ps| - 1].pid}
  {
    forall x | x in Pids(ps) ensures x in Pids(ps[..|ps| - 1]) + {ps[|ps| - 1].pid} {
      var i :| 0 <= i < |ps| && ps[i].pid == x;
      if i < |ps| - 1 {
        assert ps[..|ps| - 1][i].pid == x;
      }
    }
    forall x | x in Pids(ps[..|ps| - 1]) ensures x in Pids(ps) {
      var i :| 0 <= i < |ps| - 1 && ps[..|ps| - 1][i].pid == x;
      assert ps[i].pid == x;
    }
    assert ps[|ps| - 1].pid in Pids(ps);
  }

  lemma SeenGrow(pid: string, files: seq<FileDoc>, f: FileDoc)
    ensures SeenRecords(pid, files + [f]) == SeenRecords(pid, files) + {(pid, RecordOf(f))}
    ensures SeenDescriptors(pid, files + [f]) == SeenDescriptors(pid, files) + {(pid, f.descriptor)}
  {
    var more := files + [f];
    forall i | 0 <= i < |files| ensures more[i] == files[i] {}
    assert more[|files|] == f;
    assert forall x :: x in SeenRecords(pid, files) ==> exists i :: 0 <= i < |files| && (pid, RecordOf(more[i])) == x;
    assert forall x :: x in SeenDescriptors(pid, files) ==> exists i :: 0 <= i < |files| && (pid, more[i].descriptor) == x;
  }

  lemma GoodFilesGrow(darwin: bool, files: seq<FileDoc>, f: FileDoc)
    requires GoodFiles(darwin, files)
    ensures GoodFiles(darwin, files + [f])
            <==> GoodFile(f) && forall i :: 0 <= i < |files| ==> !Clash(darwin, files[i], f)
  {
    var more := files + [f];
    if GoodFiles(darwin, more) {
      assert GoodFile(more[|files|]);
      forall i | 0 <= i < |files| ensures !Clash(darwin, files[i], f) {
        assert !Clash(darwin, more[i], more[|files|]);
      }
    }
  }

  /** Closing an open file succeeds exactly when the listing with it is good. */
  lemma FinishOpen(darwin: bool, p: Progress)
    requires GoodProgress(darwin, p) && p.Open?
    ensures var q := Listed(p.done, p.pid, p.command, p.files + [p.open]);
            && (FinishFile(darwin, StateOf(darwin, p)).Ok? <==> GoodProgress(darwin, q))
            && (GoodProgress(darwin, q) ==> FinishFile(darwin, StateOf(darwin, p)) == Ok(StateOf(darwin, q)))
            && PrintProgress(q) == PrintProgress(p)
  {
    hide Admissible, Clash, GoodFiles, RecordsOf, Records, FieldMap, AllRecords, AllDescriptors,
         SeenRecords, SeenDescriptors, Pids, Print;
    var files, f := p.files, p.open;
    var more := files + [f];
    ForeignPid(p.done, p.pid);
    GoodFilesGrow(darwin, files, f);
    assert more[..|more| - 1] == files;
    assert PrintFiles(more) == PrintFiles(files) + PrintFile(f);
    assert 'f' in RecordOf(f);
    DescriptorOf(f);
    if GoodFile(f) {
      FinishAgrees(darwin, p.done, p.pid, p.command, files, f);
      FinishValue(darwin, p.done, p.pid, p.command, files, f);
    }
    assert Print(p.done) + PrintProcess(ProcessDoc(p.pid, p.command, more))
        == Print(p.done) + PrintProcess(ProcessDoc(p.pid, p.command, files)) + PrintFile(f);
  }

  lemma FinishValue(darwin: bool, done: Listing, pid: string, command: string, files: seq<FileDoc>, f: FileDoc)
    requires forall i :: 0 <= i < |done| ==> Positive(done[i].pid)
    requires Positive(pid) && RecordOf(f) != map[] && 'f' in RecordOf(f) && RecordOf(f)['f'] == f.descriptor
    ensures var s := ListedState(done, pid, command, files).(record := RecordOf(f));
            FinishFile(darwin, s).Ok? ==> FinishFile(darwin, s).value == ListedState(done, pid, command, files + [f])
  {
    hide Admissible, FieldMap, Records, AllRecords, AllDescriptors, SeenRecords, SeenDescriptors, Pids;
    SeenGrow(pid, files, f);
    var more := files + [f];
    assert more[..|more| - 1] == files;
    assert RecordsOf(pid, more) == RecordsOf(pid, files) + [Record(RecordOf(f), Decimal(pid))];
    assert Records(done) + RecordsOf(pid, more)
        == Records(done) + RecordsOf(pid, files) + [Record(RecordOf(f), Decimal(pid))];
    assert AllRecords(done) + SeenRecords(pid, more) == AllRecords(done) + SeenRecords(pid, files) + {(pid, RecordOf(f))};
    assert AllDescriptors(done) + SeenDescriptors(pid, more)
        == AllDescriptors(done) + SeenDescriptors(pid, files) + {(pid, f.descriptor)};
  }

  lemma DescriptorOf(f: FileDoc)
    requires DistinctFields(f.fields)
    ensures RecordOf(f)['f'] == f.descriptor
  {
    FieldMapKeys(f.fields);
  }

  lemma {:induction false} FieldMapKeys(fields: seq<(char, string)>)
    ensures forall k :: k in FieldMap(fields) <==> exists i :: 0 <= i < |fields| && fields[i].0 == k
  {
    if fields != [] {
      var rest := fields[..|fields| - 1];
      FieldMapKeys(rest);
      forall k | k in FieldMap(fields) ensures exists i :: 0 <= i < |fields| && fields[i].0 == k {
        if k == fields[|fields| - 1].0 {
        } else {
          assert k in FieldMap(rest);
          var i :| 0 <= i < |rest| && rest[i].0 == k;
          assert fields[i].0 == k;
        }
      }
      forall i | 0 <= i < |fields| ensures fields[i].0 in FieldMap(fields) {
        if i < |rest| {
          assert rest[i].0 in FieldMap(rest);
        }
      }
    }
  }

  lemma FinishAgrees(darwin: bool, done: Listing, pid: string, command: string, files: seq<FileDoc>, f: FileDoc)
    requires GoodListing(darwin, done) && Positive(pid) && GoodFiles(darwin, files) && GoodFile(f)
    requires RecordOf(f)['f'] == f.descriptor && RecordOf(f) != map[]
    requires forall m :: (pid, m) !in AllRecords(done)
    requires forall d :: (pid, d) !in AllDescriptors(done)
    ensures var s := ListedState(done, pid, command, files).(record := RecordOf(f));
            FinishFile(darwin, s).Ok? <==> forall i :: 0 <= i < |files| ==> !Clash(darwin, files[i], f)
  {
    hide Admissible, FieldMap, Records, RecordsOf, AllRecords, AllDescriptors, Pids;
    var s := ListedState(done, pid, command, files).(record := RecordOf(f));
    assert s.process.Keys == {'p', 'c'};
    assert (pid, RecordOf(f)) in s.seenRecords <==> exists i :: 0 <= i < |files| && RecordOf(files[i]) == RecordOf(f);
    assert (pid, f.descriptor) in s.seenDescriptors
      <==> exists i :: 0 <= i < |files| && files[i].descriptor == f.descriptor;
  }

  /** Progress as the reader keeps it: a closed file waits as the open one. */
  predicate Readable(darwin: bool, p: Progress) {
    GoodProgress(darwin, p) && (p.Listed? ==> p.files == [])
  }

  /** The progress after one more whole file. */
  function Closed(p: Progress): Progress {
    if p.Open? then Listed(p.done, p.pid, p.command, p.files + [p.open]) else p
  }

  lemma FinishProgress(darwin: bool, p: Progress)
    requires Readable(darwin, p)
    ensures FinishFile(darwin, StateOf(darwin, p)).Ok? <==> GoodProgress(darwin, Closed(p))
    ensures GoodProgress(darwin, Closed(p)) ==> FinishFile(darwin, StateOf(darwin, p)) == Ok(StateOf(darwin, Closed(p)))
    ensures PrintProgress(Closed(p)) == PrintProgress(p)
  {
    if p.Open? {
      FinishOpen(darwin, p);
    }
  }

  /** The listing of a process block that is complete. */
  function Whole(p: Progress): Listing {
    if p.Listed? then p.done + [ProcessDoc(p.pid, p.command, p.files)] else p.done
  }

  lemma WholeListing(darwin: bool, p: Progress)
    requires GoodProgress(darwin, p) && p.Listed? && p.files != []
    ensures GoodListing(darwin, Whole(p))
    ensures Print(Whole(p)) == PrintProgress(p)
    ensures Records(Whole(p)) == StateOf(darwin, p).records
    ensures AllRecords(Whole(p)) == StateOf(darwin, p).seenRecords
    ensures AllDescriptors(Whole(p)) == StateOf(darwin, p).seenDescriptors
    ensures Pids(Whole(p)) == StateOf(darwin, p).seenProcesses
  {
    hide GoodFiles, PrintFiles, SeenRecords, SeenDescriptors, RecordsOf;
    var w := Whole(p);
    assert w[..|w| - 1] == p.done;
    PidsSplit(w);
    forall i | 0 <= i < |p.done| ensures w[i] == p.done[i] && p.done[i].pid in Pids(p.done) {}
  }

  lemma LineNonempty(darwin: bool, s: State, line: string)
    requires Numbered(s) && ReadLine(darwin, s, line).Ok?
    ensures line != ""
  {
  }

  /** Every accepted line extends the listing it was read from by exactly itself. */
  lemma StepForward(darwin: bool, p: Progress, line: string) returns (q: Progress)
    requires Readable(darwin, p) && ReadLine(darwin, StateOf(darwin, p), line).Ok?
    ensures Readable(darwin, q) && ReadLine(darwin, StateOf(darwin, p), line).value == StateOf(darwin, q)
    ensures PrintProgress(q) == PrintProgress(p) + [line]
  {
    hide Admissible, GoodListing, GoodFiles, RecordsOf, Records, AllRecords, AllDescriptors, SeenRecords,
         SeenDescriptors, Pids, Print, PrintFiles, FinishFile, StateOf, PrintProgress, Numbered, ReadLine;
    LineNonempty(darwin, StateOf(darwin, p), line);
    var key, value := line[0], line[1..];
    assert line == [key] + value;
    if key == 'p' {
      q := StepProcess(darwin, p, value);
    } else if key == 'c' {
      q := StepCommand(darwin, p, value);
    } else if key == 'f' {
      q := StepFile(darwin, p, value);
    } else {
      q := StepField(darwin, p, key, value);
    }
  }

  lemma NothingListed(darwin: bool)
    ensures GoodListing(darwin, []) && Records([]) == [] && AllRecords([]) == {} && AllDescriptors([]) == {}
    ensures Pids([]) == {}
  {
  }

  lemma StepProcess(darwin: bool, p: Progress, value: string) returns (q: Progress)
    requires Readable(darwin, p) && ReadLine(darwin, StateOf(darwin, p), "p" + value).Ok?
    ensures Readable(darwin, q) && ReadLine(darwin, StateOf(darwin, p), "p" + value).value == StateOf(darwin, q)
    ensures PrintProgress(q) == PrintProgress(p) + ["p" + value]
  {
    hide Admissible, GoodListing, GoodFiles, FieldMap, RecordsOf, Records, AllRecords, AllDescriptors, SeenRecords,
         SeenDescriptors, Pids, Print, PrintFiles, PrintFields, FinishFile;
    FinishProgress(darwin, p);
    assert ("p" + value)[1..] == value;
    var c := Closed(p);
    NothingListed(darwin);
    var s := StateOf(darwin, c);
    assert c.Named? ==> 'p' in s.process && 'c' !in s.process;
    if c.Listed? {
      assert s.files == |c.files|;
      WholeListing(darwin, c);
    }
    q := Named(Whole(c), value);
  }

  lemma StepCommand(darwin: bool, p: Progress, value: string) returns (q: Progress)
    requires Readable(darwin, p) && ReadLine(darwin, StateOf(darwin, p), "c" + value).Ok?
    ensures Readable(darwin, q) && ReadLine(darwin, StateOf(darwin, p), "c" + value).value == StateOf(darwin, q)
    ensures PrintProgress(q) == PrintProgress(p) + ["c" + value]
  {
    hide Admissible, GoodListing, FieldMap, Records, AllRecords, AllDescriptors, Pids, Print, PrintFields, FinishFile;
    assert ("c" + value)[1..] == value;
    var s := StateOf(darwin, p);
    assert p.Listed? || p.Open? ==> 'c' in s.process;
    q := Listed(p.done, p.pid, value, []);
    assert Print(p.done) + ["p" + p.pid] + ["c" + value] == Print(p.done) + (["p" + p.pid, "c" + value] + []);
  }

  lemma StepFile(darwin: bool, p: Progress, value: string) returns (q: Progress)
    requires Readable(darwin, p) && ReadLine(darwin, StateOf(darwin, p), "f" + value).Ok?
    ensures Readable(darwin, q) && ReadLine(darwin, StateOf(darwin, p), "f" + value).value == StateOf(darwin, q)
    ensures PrintProgress(q) == PrintProgress(p) + ["f" + value]
  {
    hide Admissible, GoodListing, GoodFiles, RecordsOf, Records, AllRecords, AllDescriptors, SeenRecords,
         SeenDescriptors, Pids, Print, PrintFiles, FinishFile;
    FinishProgress(darwin, p);
    assert ("f" + value)[1..] == value;
    var c := Closed(p);
    var s := StateOf(darwin, c);
    assert !c.Listed? ==> 'c' !in s.process;
    q := Open(c.done, c.pid, c.command, c.files, FileDoc(value, []));
    assert RecordOf(FileDoc(value, [])) == map['f' := value];
    assert PrintFile(FileDoc(value, [])) == ["f" + value];
  }

  lemma StepField(darwin: bool, p: Progress, key: char, value: string) returns (q: Progress)
    requires Readable(darwin, p) && key !in {'p', 'c', 'f'} && ReadLine(darwin, StateOf(darwin, p), [key] + value).Ok?
    ensures Readable(darwin, q) && ReadLine(darwin, StateOf(darwin, p), [key] + value).value == StateOf(darwin, q)
    ensures PrintProgress(q) == PrintProgress(p) + [[key] + value]
  {
    hide Admissible, GoodListing, GoodFiles, RecordsOf, Records, AllRecords, AllDescriptors, SeenRecords, RecordOf,
         SeenDescriptors, Pids, Print, PrintFiles, PrintFile, FinishFile, DistinctFields, Digits, Positive;
    assert ([key] + value)[1..] == value;
    var s := StateOf(darwin, p);
    assert !p.Open? ==> s.record == map[];
    var g := FileDoc(p.open.descriptor, p.open.fields + [(key, value)]);
    FieldAdded(p.open, key, value);
    q := p.(open := g);
    assert Print(p.done) + PrintProcess(ProcessDoc(p.pid, p.command, p.files)) + PrintFile(g)
        == Print(p.done) + PrintProcess(ProcessDoc(p.pid, p.command, p.files)) + PrintFile(p.open) + [[key] + value];
  }

  lemma FieldAdded(f: FileDoc, key: char, value: string)
    requires DistinctFields(f.fields)
    ensures var g := FileDoc(f.descriptor, f.fields + [(key, value)]);
            && RecordOf(g) == RecordOf(f)[key := value]
            && PrintFile(g) == PrintFile(f) + [[key] + value]
            && (DistinctFields(g.fields) <==> key in {'t', 'D', 'i', 'n'} && key !in RecordOf(f))
  {
    var g := FileDoc(f.descriptor, f.fields + [(key, value)]);
    assert g.fields[..|g.fields| - 1] == f.fields;
    FieldMapKeys(f.fields);
    if DistinctFields(g.fields) {
      assert g.fields[|f.fields|].0 == key;
      forall i | 0 <= i < |f.fields| ensures f.fields[i].0 != key {
        assert g.fields[i] == f.fields[i];
      }
    }
  }

  lemma {:induction false} ReadLinesForward(darwin: bool, p: Progress, lines: seq<string>) returns (q: Progress)
    requires Readable(darwin, p) && ReadLines(darwin, StateOf(darwin, p), lines).Ok?
    ensures Readable(darwin, q) && ReadLines(darwin, StateOf(darwin, p), lines).value == StateOf(darwin, q)
    ensures PrintProgress(q) == PrintProgress(p) + lines
    decreases |lines|
  {
    hide StateOf, Readable, PrintProgress, ReadLine, Numbered;
    ReadableGood(darwin, p);
    if lines == [] {
      q := p;
      assert PrintProgress(p) + [] == PrintProgress(p);
    } else {
      var next := StepForward(darwin, p, lines[0]);
      q := ReadLinesForward(darwin, next, lines[1..]);
      assert PrintProgress(p) + [lines[0]] + lines[1..] == PrintProgress(p) + lines;
    }
  }

  lemma ReadableGood(darwin: bool, p: Progress)
    requires Readable(darwin, p)
    ensures GoodProgress(darwin, p)
  {
  }

  lemma {:induction false} ReadLinesSnoc(darwin: bool, s: State, lines: seq<string>, line: string)
    requires Numbered(s)
    ensures ReadLines(darwin, s, lines + [line])
         == match ReadLines(darwin, s, lines) case Err(e) => Err(e) case Ok(m) => ReadLine(darwin, m, line)
    decreases |lines|
  {
    hide ReadLine, Numbered;
    if lines == [] {
      assert [line][1..] == [];
    } else {
      assert (lines + [line])[1..] == lines[1..] + [line];
      if ReadLine(darwin, s, lines[0]).Ok? {
        ReadLinesSnoc(darwin, ReadLine(darwin, s, lines[0]).value, lines[1..], line);
      }
    }
  }

  /** The progress after a process block, its last file still open. */
  function OpenLast(done: Listing, p: ProcessDoc): Progress
    requires p.files != []
  {
    Open(done, p.pid, p.command, p.files[..|p.files| - 1], p.files[|p.files| - 1])
  }

  /** The progress after a whole listing. */
  function LastOpen(ps: Listing): Progress
    requires forall i :: 0 <= i < |ps| ==> ps[i].files != []
  {
    if ps == [] then Between([]) else OpenLast(ps[..|ps| - 1], ps[|ps| - 1])
  }

  lemma NonEmptyBlocks(darwin: bool, ps: Listing)
    requires GoodListing(darwin, ps)
    ensures forall i :: 0 <= i < |ps| ==> ps[i].files != []
  {
  }

  lemma GoodPrefix(darwin: bool, ps: Listing)
    requires GoodListing(darwin, ps) && ps != []
    ensures var p := ps[|ps| - 1];
            && GoodListing(darwin, ps[..|ps| - 1])
            && Positive(p.pid) && p.command != "" && p.files != [] && GoodFiles(darwin, p.files)
            && p.pid !in Pids(ps[..|ps| - 1])
  {
    var done := ps[..|ps| - 1];
    forall i | 0 <= i < |done| ensures done[i] == ps[i] && done[i].pid != ps[|ps| - 1].pid {}
  }

  lemma GoodFilesPrefix(darwin: bool, files: seq<FileDoc>)
    requires GoodFiles(darwin, files) && files != []
    ensures GoodFiles(darwin, files[..|files| - 1]) && GoodFile(files[|files| - 1])
    ensures files[..|files| - 1] + [files[|files| - 1]] == files
  {
    hide GoodFile, Clash;
    var rest := files[..|files| - 1];
    assert forall i :: 0 <= i < |rest| ==> rest[i] == files[i];
  }

  lemma FrontAndLast(ps: Listing)
    requires ps != []
    ensures ps[..|ps| - 1] + [ps[|ps| - 1]] == ps
  {
  }

  lemma LastOpenReadable(darwin: bool, ps: Listing)
    requires GoodListing(darwin, ps)
    ensures forall i :: 0 <= i < |ps| ==> ps[i].files != []
    ensures Readable(darwin, LastOpen(ps)) && PrintProgress(LastOpen(ps)) == Print(ps)
    ensures GoodProgress(darwin, Closed(LastOpen(ps))) && Whole(Closed(LastOpen(ps))) == ps
    ensures ps != [] ==> LastOpen(ps).Open?
  {
    hide GoodListing, Print, OpenLast, Readable, PrintProgress, GoodProgress, Closed, Whole;
    NonEmptyBlocks(darwin, ps);
    if ps == [] {
      NothingOpen(darwin);
    } else {
      GoodPrefix(darwin, ps);
      var front, last := ps[..|ps| - 1], ps[|ps| - 1];
      OpenLastReadable(darwin, front, last);
      FrontAndLast(ps);
      PrintSnoc(ps);
    }
  }

  lemma NothingOpen(darwin: bool)
    ensures Readable(darwin, Between([])) && PrintProgress(Between([])) == Print([])
    ensures GoodProgress(darwin, Closed(Between([]))) && Whole(Closed(Between([]))) == []
  {
  }

  lemma PrintSnoc(ps: Listing)
    requires ps != []
    ensures Print(ps) == Print(ps[..|ps| - 1]) + PrintProcess(ps[|ps| - 1])
  {
  }

  lemma OpenLastReadable(darwin: bool, done: Listing, p: ProcessDoc)
    requires GoodListing(darwin, done) && p.pid !in Pids(done)
    requires Positive(p.pid) && p.command != "" && p.files != [] && GoodFiles(darwin, p.files)
    ensures var q := OpenLast(done, p);
            && Readable(darwin, q) && q.Open? && GoodProgress(darwin, Closed(q)) && Whole(Closed(q)) == done + [p]
            && PrintProgress(q) == Print(done) + PrintProcess(p)
  {
    hide GoodFiles, Pids, Admissible, Clash, Positive, PrintProcess, GoodListing, Print, RecordOf;
    GoodFilesPrefix(darwin, p.files);
    var q := OpenLast(done, p);
    FinishOpenPrints(q);
    assert Closed(q) == Listed(done, p.pid, p.command, p.files);
    assert p == ProcessDoc(p.pid, p.command, p.files);
  }

  lemma FinishOpenPrints(p: Progress)
    requires p.Open?
    ensures PrintProgress(Closed(p)) == PrintProgress(p)
  {
    var more := p.files + [p.open];
    assert more[..|more| - 1] == p.files;
    assert PrintFiles(more) == PrintFiles(p.files) + PrintFile(p.open);
    assert Print(p.done) + PrintProcess(ProcessDoc(p.pid, p.command, more))
        == Print(p.done) + PrintProcess(ProcessDoc(p.pid, p.command, p.files)) + PrintFile(p.open);
  }

  /** The progress one line earlier, and that line. */
  function Before(p: Progress): (Progress, string)
    requires !p.Between? && (p.Listed? ==> p.files == [])
    requires forall i :: 0 <= i < |p.done| ==> p.done[i].files != []
  {
    match p
    case Named(done, pid) => (LastOpen(done), "p" + pid)
    case Listed(done, pid, command, files) => (Named(done, pid), "c" + command)
    case Open(done, pid, command, files, open) =>
      if open.fields == [] then
        (if files == [] then Listed(done, pid, command, [])
         else Open(done, pid, command, files[..|files| - 1], files[|files| - 1]), "f" + open.descriptor)
      else
        (Open(done, pid, command, files, FileDoc(open.descriptor, open.fields[..|open.fields| - 1])),
         FieldLine(open.fields[|open.fields| - 1]))
  }

  /** Reading that line moves from the one to the other. */
  lemma StepBack(darwin: bool, p: Progress)
    requires Readable(darwin, p) && !p.Between?
    ensures var (q, line) := Before(p);
            && Readable(darwin, q) && PrintProgress(p) == PrintProgress(q) + [line]
            && ReadLine(darwin, StateOf(darwin, q), line) == Ok(StateOf(darwin, p))
  {
    match p
    case Named(done, pid) => BackNamed(darwin, done, pid);
    case Listed(done, pid, command, files) => BackListed(darwin, done, pid, command);
    case Open(done, pid, command, files, open) =>
      if open.fields == [] {
        BackFile(darwin, p);
      } else {
        BackField(darwin, p);
      }
  }

  lemma BackNamed(darwin: bool, done: Listing, pid: string)
    requires Readable(darwin, Named(done, pid))
    ensures Readable(darwin, LastOpen(done)) && PrintProgress(Named(done, pid)) == PrintProgress(LastOpen(done)) + ["p" + pid]
    ensures ReadLine(darwin, StateOf(darwin, LastOpen(done)), "p" + pid) == Ok(StateOf(darwin, Named(done, pid)))
  {
    hide Admissible, GoodListing, GoodFiles, FieldMap, RecordsOf, Records, AllRecords, AllDescriptors, SeenRecords,
         SeenDescriptors, Pids, Print, PrintFiles, PrintFields, FinishFile, Positive;
    LastOpenReadable(darwin, done);
    var q := LastOpen(done);
    FinishProgress(darwin, q);
    assert ("p" + pid)[1..] == pid;
    NothingListed(darwin);
    if done != [] {
      WholeListing(darwin, Closed(q));
    }
  }

  lemma BackListed(darwin: bool, done: Listing, pid: string, command: string)
    requires Readable(darwin, Listed(done, pid, command, []))
    ensures Readable(darwin, Named(done, pid))
    ensures PrintProgress(Listed(done, pid, command, [])) == PrintProgress(Named(done, pid)) + ["c" + command]
    ensures ReadLine(darwin, StateOf(darwin, Named(done, pid)), "c" + command)
         == Ok(StateOf(darwin, Listed(done, pid, command, [])))
  {
    hide Admissible, FieldMap, GoodFiles, Records, AllRecords, AllDescriptors, Pids, Print, PrintFields, FinishFile;
    assert ("c" + command)[1..] == command;
    assert Print(done) + ["p" + pid] + ["c" + command] == Print(done) + (["p" + pid, "c" + command] + []);
    assert Records(done) + [] == Records(done);
    assert SeenRecords(pid, []) == {} && SeenDescriptors(pid, []) == {};
    assert AllRecords(done) + {} == AllRecords(done) && AllDescriptors(done) + {} == AllDescriptors(done);
  }

  lemma BackFile(darwin: bool, p: Progress)
    requires Readable(darwin, p) && p.Open? && p.open.fields == []
    requires forall i :: 0 <= i < |p.done| ==> p.done[i].files != []
    ensures var (q, line) := Before(p);
            && Readable(darwin, q) && PrintProgress(p) == PrintProgress(q) + [line]
            && ReadLine(darwin, StateOf(darwin, q), line) == Ok(StateOf(darwin, p))
  {
    hide Admissible, GoodListing, RecordsOf, Records, AllRecords, AllDescriptors, SeenRecords, Clash, Digits,
         SeenDescriptors, Pids, Print, PrintFiles, PrintFields, FinishFile;
    var (q, line) := Before(p);
    assert ("f" + p.open.descriptor)[1..] == p.open.descriptor;
    if p.files != [] {
      assert q.files + [q.open] == p.files;
      assert GoodFile(p.files[|p.files| - 1]);
    }
    assert Closed(q) == Listed(p.done, p.pid, p.command, p.files);
    FinishProgress(darwin, q);
    assert RecordOf(p.open) == map['f' := p.open.descriptor];
    var file := PrintFile(FileDoc(p.open.descriptor, []));
    assert file == ["f" + p.open.descriptor] by {
      NoFields();
    }
  }

  lemma NoFields()
    ensures PrintFields([]) == []
  {
  }

  lemma BackField(darwin: bool, p: Progress)
    requires Readable(darwin, p) && p.Open? && p.open.fields != []
    requires forall i :: 0 <= i < |p.done| ==> p.done[i].files != []
    ensures var (q, line) := Before(p);
            && Readable(darwin, q) && PrintProgress(p) == PrintProgress(q) + [line]
            && ReadLine(darwin, StateOf(darwin, q), line) == Ok(StateOf(darwin, p))
  {
    hide Admissible, GoodListing, GoodFiles, RecordsOf, Records, AllRecords, AllDescriptors, SeenRecords,
         SeenDescriptors, Pids, Print, PrintFiles, FinishFile, Digits;
    var fields := p.open.fields;
    var (q, line) := Before(p);
    var (key, value) := fields[|fields| - 1];
    assert ([key] + value)[1..] == value;
    assert q.open.fields + [(key, value)] == fields;
    forall i | 0 <= i < |q.open.fields| ensures q.open.fields[i] == fields[i] {}
    FieldAdded(q.open, key, value);
    assert RecordOf(q.open) != map[] by {
      assert 'f' in RecordOf(q.open);
    }
    assert PrintProgress(p) == PrintProgress(q) + [line];
  }

  lemma {:induction false} ReadBack(darwin: bool, p: Progress)
    requires Readable(darwin, p)
    ensures ReadLines(darwin, INITIAL, PrintProgress(p)) == Ok(StateOf(darwin, p))
    decreases |PrintProgress(p)|
  {
    hide GoodListing, GoodFiles, Admissible, StateOf, ReadLine, ReadLines, Before, PrintProgress, INITIAL;
    if p.Between? {
      ReadNothing(darwin);
    } else {
      NonEmptyBlocks(darwin, p.done);
      StepBack(darwin, p);
      var (q, line) := Before(p);
      ReadBack(darwin, q);
      InitialNumbered();
      ReadLinesSnoc(darwin, INITIAL, PrintProgress(q), line);
    }
  }

  lemma ReadNothing(darwin: bool)
    ensures Readable(darwin, Between([])) && PrintProgress(Between([])) == []
    ensures ReadLines(darwin, INITIAL, []) == Ok(StateOf(darwin, Between([])))
  {
  }

  /** The reader inverts the printer: every good listing is accepted, and read as its records. */
  lemma ReaderInvertsPrinter(darwin: bool, ps: Listing)
    requires GoodListing(darwin, ps) && ps != []
    ensures ParsedRecords(darwin, Print(ps)) == Ok(Records(ps))
  {
    hide ReadLines, StateOf, Print, FinishFile, GoodProgress, Readable, PrintProgress, Closed, Whole, INITIAL, GoodListing;
    LastOpenReadable(darwin, ps);
    var p := LastOpen(ps);
    ReadBack(darwin, p);
    ReadableGood(darwin, p);
    FinishProgress(darwin, p);
    PrintNonEmpty(ps);
    FinalState(darwin, p, ps);
  }

  lemma PrintNonEmpty(ps: Listing)
    requires ps != []
    ensures Print(ps) != []
  {
  }

  lemma FinalState(darwin: bool, p: Progress, ps: Listing)
    requires p.Open? && GoodProgress(darwin, Closed(p)) && Whole(Closed(p)) == ps
    ensures GoodListing(darwin, ps)
    ensures var s := StateOf(darwin, Closed(p)); s.records == Records(ps) && s.records != [] && s.files != 0
    ensures Print(ps) == PrintProgress(Closed(p))
  {
    hide GoodListing, GoodFiles, Records, AllRecords, AllDescriptors, SeenRecords, SeenDescriptors, Print, Pids;
    WholeListing(darwin, Closed(p));
  }

  /** Whatever the reader accepts is the printing of a good listing, and what it returns are that listing's records. */
  lemma AcceptedIsListing(darwin: bool, lines: seq<string>) returns (ps: Listing)
    requires ParsedRecords(darwin, lines).Ok?
    ensures ps != [] && GoodListing(darwin, ps) && Print(ps) == lines
    ensures ParsedRecords(darwin, lines).value == Records(ps)
  {
    hide ReadLines, Print, FinishFile, GoodListing, Readable, PrintProgress, Whole, INITIAL;
    ReadNothing(darwin);
    StartState(darwin);
    var p := ReadLinesForward(darwin, Between([]), lines);
    assert PrintProgress(p) == lines by {
      assert [] + lines == lines;
    }
    FinishProgress(darwin, p);
    ReadableGood(darwin, p);
    var s := StateOf(darwin, p);
    NotOpenHasNoFiles(darwin, p);
    ps := Whole(Closed(p));
    FinalState(darwin, p, ps);
    AcceptedNonEmpty(p);
  }

  lemma StartState(darwin: bool)
    ensures Readable(darwin, Between([])) && GoodProgress(darwin, Between([])) && StateOf(darwin, Between([])) == INITIAL
  {
  }

  lemma AcceptedNonEmpty(p: Progress)
    requires p.Open?
    ensures Whole(Closed(p)) != []
  {
  }

  lemma NotOpenHasNoFiles(darwin: bool, p: Progress)
    requires Readable(darwin, p)
    ensures p.Open? || StateOf(darwin, p).files == 0
    ensures p.Open? || FinishFile(darwin, StateOf(darwin, p)) == Ok(StateOf(darwin, p))
  {
  }

  /** The reader accepts exactly the printings of good listings. */
  lemma AcceptsExactlyListings(darwin: bool, lines: seq<string>)
    ensures ParsedRecords(darwin, lines).Ok? <==> exists ps :: IsListing(darwin, ps, lines)
  {
    if ParsedRecords(darwin, lines).Ok? {
      var ps := AcceptedIsListing(darwin, lines);
      assert IsListing(darwin, ps, lines);
    }
    if ps :| IsListing(darwin, ps, lines) {
      ReaderInvertsPrinter(darwin, ps);
    }
  }

  ghost predicate IsListing(darwin: bool, ps: Listing, lines: seq<string>) {
    ps != [] && GoodListing(darwin, ps) && Print(ps) == lines
  }

  /** Every record returned is admissible: on a filesystem row the identity is complete and its device is not zero. */
  lemma {:induction false} RecordsAdmissible(darwin: bool, ps: Listing)
    requires GoodListing(darwin, ps)
    ensures forall r :: r in Records(ps) ==>
              Admissible(r.fields) && (r.fields['t'] in FILESYSTEM_TYPES ==> FilesystemRow(r.fields))
  {
    hide Admissible, FilesystemRow;
    if ps != [] {
      GoodPrefix(darwin, ps);
      RecordsAdmissible(darwin, ps[..|ps| - 1]);
      BlockAdmissible(darwin, ps[|ps| - 1].pid, ps[|ps| - 1].files);
    }
  }

  lemma {:induction false} BlockAdmissible(darwin: bool, pid: string, files: seq<FileDoc>)
    requires Positive(pid) && GoodFiles(darwin, files)
    ensures forall r :: r in RecordsOf(pid, files) ==>
              Admissible(r.fields) && (r.fields['t'] in FILESYSTEM_TYPES ==> FilesystemRow(r.fields))
  {
    if files != [] {
      GoodFilesPrefix(darwin, files);
      BlockAdmissible(darwin, pid, files[..|files| - 1]);
    }
  }
}
