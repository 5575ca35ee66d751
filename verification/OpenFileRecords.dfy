/** The strict reader of field-per-line lsof output. A line is one key character and a value. */
module OpenFileRecords {
  import opened Results
  import Texts

  type Fields = map<char, string>

  datatype Record = Record(fields: Fields, pid: nat)

  // ----- texts -----

  predicate Digits(s: string) {
    s != "" && forall i :: 0 <= i < |s| ==> '0' <= s[i] <= '9'
  }

  /** A decimal number without leading zero. */
  predicate Positive(s: string) {
    Digits(s) && s[0] != '0'
  }

  function Decimal(s: string): nat
    requires forall i :: 0 <= i < |s| ==> '0' <= s[i] <= '9'
  {
    if s == "" then 0 else 10 * Decimal(s[..|s| - 1]) + (s[|s| - 1] as int - '0' as int)
  }

  function Unprefixed(s: string): string {
    if "0x" <= s then s[2..] else s
  }

  predicate Hex(s: string) {
    Unprefixed(s) != "" && forall i :: 0 <= i < |Unprefixed(s)| ==> Texts.HexDigit(Unprefixed(s)[i])
  }

  /** A hexadecimal number is zero when all its digits are. */
  predicate NonZero(s: string) {
    exists i :: 0 <= i < |Unprefixed(s)| && Unprefixed(s)[i] != '0'
  }

  predicate DenialLike(name: string) {
    var n := Texts.Lower(name);
    Texts.Infix("permission denied", n) || Texts.Infix("operation not permitted", n) || Texts.Infix("no such file", n)
    || Texts.Infix("read error", n) || Texts.Infix("can't stat", n)
  }

  const DESCRIPTORS := {"cwd", "rtd", "twd", "txt", "mem", "ltx", "mmap"}
  const FILESYSTEM_TYPES := {"REG", "DIR", "CHR", "BLK", "FIFO", "LINK"}
  const NON_FILESYSTEM_TYPES := {"unix", "IPv4", "IPv6", "PIPE", "KQUEUE", "NPOLICY",
                                 "NEXUS", "systm", "CHAN", "key", "netlink", "a_inode"}
  const NAMELESS_TYPES := {"PIPE", "NPOLICY", "NEXUS", "key"}

  // ----- one record -----

  /** A filesystem row carries a complete identity: a device that is not zero, an inode and an absolute name. */
  predicate FilesystemRow(r: Fields) {
    && r.Keys == {'f', 't', 'D', 'i', 'n'}
    && Hex(r['D']) && NonZero(r['D']) && Positive(r['i']) && "/" <= r['n']
    && (r['f'] in {"cwd", "rtd", "twd"} ==> r['t'] == "DIR")
  }

  predicate OtherRow(r: Fields) {
    r.Keys == {'f', 't', 'n'} && Digits(r['f']) && (r['n'] != "" || r['t'] in NAMELESS_TYPES)
  }

  predicate Admissible(r: Fields) {
    && {'f', 't', 'n'} <= r.Keys
    && (Digits(r['f']) || r['f'] in DESCRIPTORS)
    && !DenialLike(r['n'])
    && (if r['t'] in FILESYSTEM_TYPES then FilesystemRow(r) else r['t'] in NON_FILESYSTEM_TYPES && OtherRow(r))
  }

  /** On Darwin several threads may report the same working directory. */
  predicate ThreadDirectory(darwin: bool, r: Fields)
    requires {'f', 't'} <= r.Keys
  {
    darwin && r['f'] == "twd" && r['t'] == "DIR"
  }

  // ----- the reader as a fold -----

  datatype State = State(records: seq<Record>, process: Fields, record: Fields, files: nat,
                         seenProcesses: set<string>, seenRecords: set<(string, Fields)>,
                         seenDescriptors: set<(string, string)>)

  const INITIAL := State([], map[], map[], 0, {}, {}, {})

  /** The records are well formed enough to be numbered: a process that has a pid has a decimal one. */
  predicate Numbered(s: State) {
    'p' in s.process ==> Positive(s.process['p'])
  }

  function FinishFile(darwin: bool, s: State): (r: Result<State>)
    requires Numbered(s)
    ensures r.Ok? ==> r.value.process == s.process && r.value.record == map[]
  {
    if s.record == map[] then Ok(s)
    else if s.process.Keys != {'p', 'c'} || !Admissible(s.record) then Err("Incomplete or unqualified record")
    else
      var p := s.process['p'];
      var f := s.record['f'];
      if (p, s.record) in s.seenRecords && !ThreadDirectory(darwin, s.record) then Err("Duplicate file record")
      else if Digits(f) && (p, f) in s.seenDescriptors then Err("Contradictory duplicate descriptor")
      else Ok(State(s.records + [Record(s.record, Decimal(p))], s.process, map[], s.files + 1, s.seenProcesses,
                    s.seenRecords + {(p, s.record)}, s.seenDescriptors + {(p, f)}))
  }

  function ReadLine(darwin: bool, s: State, line: string): (r: Result<State>)
    requires Numbered(s)
    ensures r.Ok? ==> Numbered(r.value)
  {
    if line == "" then Err("Unknown, misplaced or duplicate lsof field")
    else
      var key, value := line[0], line[1..];
      if key == 'p' then
        var s1 :- FinishFile(darwin, s);
        if s1.process != map[] && (s1.process.Keys != {'p', 'c'} || s1.files == 0) then Err("Incomplete process record")
        else if !Positive(value) || value in s1.seenProcesses then Err("Invalid or duplicate process")
        else Ok(s1.(seenProcesses := s1.seenProcesses + {value}, process := map['p' := value], files := 0))
      else if key == 'c' then
        if s.process.Keys != {'p'} || s.record != map[] || value == "" then Err("Invalid process command")
        else Ok(s.(process := s.process['c' := value]))
      else if key == 'f' then
        var s1 :- FinishFile(darwin, s);
        if s1.process.Keys != {'p', 'c'} then Err("File without process identity")
        else Ok(s1.(record := map['f' := value]))
      else if key in {'t', 'D', 'i', 'n'} && s.record != map[] && key !in s.record then
        Ok(s.(record := s.record[key := value]))
      else Err("Unknown, misplaced or duplicate lsof field")
  }

  function ReadLines(darwin: bool, s: State, lines: seq<string>): (r: Result<State>)
    requires Numbered(s)
    ensures r.Ok? ==> Numbered(r.value)
    decreases |lines|
  {
    if lines == [] then Ok(s)
    else
      var s1 :- ReadLine(darwin, s, lines[0]);
      ReadLines(darwin, s1, lines[1..])
  }

  function ParsedRecords(darwin: bool, lines: seq<string>): Result<seq<Record>> {
    if lines == [] then Err("Empty or truncated lsof output")
    else
      var s :- ReadLines(darwin, INITIAL, lines);
      var end :- FinishFile(darwin, s);
      if end.records == [] || end.files == 0 then Err("Incomplete final process record")
      else Ok(end.records)
  }

  // ----- the reader as it runs -----

  class Reader {
    const darwin: bool
    var records: seq<Record>
    var process: Fields
    var record: Fields
    var files: nat
    var seenProcesses: set<string>
    var seenRecords: set<(string, Fields)>
    var seenDescriptors: set<(string, string)>

    function Value(): State
      reads this
    {
      State(records, process, record, files, seenProcesses, seenRecords, seenDescriptors)
    }

    constructor (d: bool)
      ensures darwin == d && Value() == INITIAL
    {
      darwin := d;
      records, process, record, files := [], map[], map[], 0;
      seenProcesses, seenRecords, seenDescriptors := {}, {}, {};
    }

    method Finish() returns (r: Result<()>)
      requires Numbered(Value())
      modifies this
      ensures r.Ok? <==> FinishFile(darwin, old(Value())).Ok?
      ensures Value() == if r.Ok? then FinishFile(darwin, old(Value())).value else old(Value())
    {
      if record == map[] {
        return Ok(());
      }
      if process.Keys != {'p', 'c'} || !Admissible(record) {
        return Err("Incomplete or unqualified record");
      }
      var pid := process['p'];
      var identity := (pid, record);
      if identity in seenRecords && !ThreadDirectory(darwin, record) {
        return Err("Duplicate file record");
      }
      var descriptor := (pid, record['f']);
      if Digits(record['f']) && descriptor in seenDescriptors {
        return Err("Contradictory duplicate descriptor");
      }
      seenDescriptors := seenDescriptors + {descriptor};
      seenRecords := seenRecords + {identity};
      records := records + [Record(record, Decimal(pid))];
      files := files + 1;
      record := map[];
      r := Ok(());
    }

    method Line(line: string) returns (r: Result<()>)
      requires Numbered(Value())
      modifies this
      ensures r.Ok? <==> ReadLine(darwin, old(Value()), line).Ok?
      ensures r.Ok? ==> Value() == ReadLine(darwin, old(Value()), line).value
    {
      if line == "" {
        return Err("Unknown, misplaced or duplicate lsof field");
      }
      var key, value := line[0], line[1..];
      if key == 'p' {
        r := Finish();
        if r.Err? {
          return;
        }
        if process != map[] && (process.Keys != {'p', 'c'} || files == 0) {
          return Err("Incomplete process record");
        }
        if !Positive(value) || value in seenProcesses {
          return Err("Invalid or duplicate process");
        }
        seenProcesses := seenProcesses + {value};
        process, files := map['p' := value], 0;
      } else if key == 'c' {
        if process.Keys != {'p'} || record != map[] || value == "" {
          return Err("Invalid process command");
        }
        process := process['c' := value];
      } else if key == 'f' {
        r := Finish();
        if r.Err? {
          return;
        }
        if process.Keys != {'p', 'c'} {
          return Err("File without process identity");
        }
        record := map['f' := value];
      } else if key in {'t', 'D', 'i', 'n'} && record != map[] && key !in record {
        record := record[key := value];
      } else {
        return Err("Unknown, misplaced or duplicate lsof field");
      }
      r := Ok(());
    }

    method Parse(lines: seq<string>) returns (r: Result<seq<Record>>)
      requires Value() == INITIAL
      modifies this
      ensures r.Ok? <==> ParsedRecords(darwin, lines).Ok?
      ensures r.Ok? ==> r.value == ParsedRecords(darwin, lines).value
    {
      hide ReadLine, FinishFile, Numbered;
      if lines == [] {
        return Err("Empty or truncated lsof output");
      }
      InitialNumbered();
      for i := 0 to |lines|
        invariant Numbered(Value())
        invariant ReadLines(darwin, INITIAL, lines) == ReadLines(darwin, Value(), lines[i..])
      {
        assert lines[i..][1..] == lines[i + 1..];
        var step := Line(lines[i]);
        if step.Err? {
          return Err(step.error);
        }
      }
      var finished := Finish();
      if finished.Err? {
        return Err(finished.error);
      }
      if records == [] || files == 0 {
        return Err("Incomplete final process record");
      }
      r := Ok(records);
    }
  }

  lemma InitialNumbered()
    ensures Numbered(INITIAL)
  {
  }
}
