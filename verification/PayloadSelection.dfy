/** Which cached build products may be retired: the hard-link pass and the unit-metadata pass of select_payload. */
module PayloadSelection {
  import opened Results
  import opened CacheTree
  import Lists
  import Texts

  datatype UnitKey = UnitKey(profile: Name, unit: string)

  /** What format sniffing, signatures, Cargo layout and provenance say about one unprotected regular file.
      The control files of a unit are its dep-info and fingerprints. */
  datatype Verdict = Retain | Qualify(kind: string, unit: UnitKey, controls: seq<Name>)

  type Classifier = Name -> Verdict

  datatype Entry = Entry(row: Row, kind: string, sha: Content)

  type Selection = map<Name, Entry>

  predicate Protected(n: Name, keep: seq<Name>) {
    exists p :: p in keep && p <= n
  }

  predicate Candidate(files: map<Name, Row>, keep: seq<Name>, cl: Classifier, n: Name) {
    n in files && !Protected(n, keep) && files[n].ftype == Regular && cl(n).Qualify?
  }

  // ----- file names -----

  function LastDot(s: string): int
    ensures -1 <= LastDot(s) < |s|
  {
    if s == "" then -1 else if s[|s| - 1] == '.' then |s| - 1 else LastDot(s[..|s| - 1])
  }

  /** The suffix as pathlib gives it: none for a leading or a trailing dot. */
  function Suffix(base: string): string {
    var i := LastDot(base);
    if 0 < i < |base| - 1 then base[i..] else ""
  }

  lemma {:induction false} LastDotIs(s: string)
    ensures LastDot(s) == -1 <==> '.' !in s
    ensures LastDot(s) >= 0 ==> s[LastDot(s)] == '.' && '.' !in s[LastDot(s) + 1..]
  {
    if s != "" && s[|s| - 1] != '.' {
      var front := s[..|s| - 1];
      LastDotIs(front);
      assert s == front + [s[|s| - 1]];
      if LastDot(s) >= 0 {
        assert s[LastDot(s) + 1..] == front[LastDot(s) + 1..] + [s[|s| - 1]];
      }
    }
  }

  /** A suffix is what starts at the last dot of a name, unless nothing stands before or behind that dot. */
  lemma SuffixIs(base: string)
    ensures Suffix(base) == "" <==> '.' !in base || base[|base| - 1] == '.' || '.' !in base[1..]
    ensures Suffix(base) != "" ==>
      var stem := base[..|base| - |Suffix(base)|];
      base == stem + Suffix(base) && stem != "" && Suffix(base)[0] == '.' && '.' !in Suffix(base)[1..]
  {
    LastDotIs(base);
    var i := LastDot(base);
    if i > 0 {
      assert base[1..][i - 1] == '.';
    } else if i == 0 {
      assert base[1..] == base[i + 1..];
    }
    if i >= 0 {
      assert i < |base| - 1 ==> base[|base| - 1] == base[i + 1..][|base| - 2 - i];
      assert base[i..][1..] == base[i + 1..];
    }
    if base != "" && i == -1 {
      assert base[|base| - 1] in base;
    }
  }

  const PAYLOAD_SUFFIXES := {".rlib", ".rmeta", ".a", ".o", ".dylib", ".so", ".wasm", ""}

  /** A compiler payload of a hashed unit lies directly in the deps directory of its profile. */
  predicate Payload(u: UnitKey, n: Name) {
    |n| > 0 && n[..|n| - 1] == u.profile + ["deps"] && Texts.Infix("-" + u.unit + ".", n[|n| - 1])
    && Suffix(n[|n| - 1]) in PAYLOAD_SUFFIXES
  }

  /** Payloads of a unit are the files in deps that carry its hash between a dash and a dot and end as compiler products do. */
  lemma PayloadExactly(u: UnitKey, n: Name)
    ensures Payload(u, n) <==>
      && |n| == |u.profile| + 2 && u.profile <= n && n[|u.profile|] == "deps"
      && (exists a, c :: n[|n| - 1] == a + ("-" + u.unit + ".") + c)
      && Suffix(n[|n| - 1]) in {".rlib", ".rmeta", ".a", ".o", ".dylib", ".so", ".wasm", ""}
  {
    hide Suffix, Texts.Infix;
    if |n| > 0 {
      Texts.InfixIs("-" + u.unit + ".", n[|n| - 1]);
      if n[..|n| - 1] == u.profile + ["deps"] {
        assert n == n[..|n| - 1] + [n[|n| - 1]];
      }
      if |n| == |u.profile| + 2 && u.profile <= n && n[|u.profile|] == "deps" {
        assert n[..|n| - 1] == u.profile + ["deps"];
      }
    }
  }

  function Payloads(files: map<Name, Row>, u: UnitKey): set<Name> {
    set n | n in files && Payload(u, n)
  }

  // ----- specification -----

  function Candidates(files: map<Name, Row>, contents: map<Name, Content>, keep: seq<Name>, cl: Classifier): Selection
    requires files.Keys <= contents.Keys
  {
    map n | n in files && Candidate(files, keep, cl, n) :: Entry(files[n], cl(n).kind, contents[n])
  }

  function Group(files: map<Name, Row>, id: FileId): set<Name> {
    set n | n in files && files[n].id == id
  }

  /** All rows of one inode report the same link count. */
  predicate Coherent(files: map<Name, Row>) {
    forall m, n :: m in files && n in files && files[m].id == files[n].id ==> files[m].nlink == files[n].nlink
  }

  /** No retained, external or unknown hard-link peer. */
  predicate Unsevered(files: map<Name, Row>, s: set<Name>, n: Name)
    requires n in files
  {
    Group(files, files[n].id) <= s && files[n].nlink == |Group(files, files[n].id)|
  }

  function LinkClosed(files: map<Name, Row>, s: Selection): Selection
    requires s.Keys <= files.Keys
  {
    map n | n in s && Unsevered(files, s.Keys, n) :: s[n]
  }

  datatype Units = Units(order: seq<UnitKey>, controls: map<UnitKey, seq<Name>>)

  /** The unit table, in insertion order; the last candidate of a unit supplies its control files. */
  function UnitTable(files: map<Name, Row>, keep: seq<Name>, cl: Classifier, order: seq<Name>): (r: Units)
    ensures forall u :: u in r.order <==> u in r.controls
  {
    if order == [] then Units([], map[])
    else
      var n := order[|order| - 1];
      var before := UnitTable(files, keep, cl, order[..|order| - 1]);
      if Candidate(files, keep, cl, n) then
        var u := cl(n).unit;
        Units(if u in before.controls then before.order else before.order + [u], before.controls[u := cl(n).controls])
      else before
  }

  const METADATA_KIND := "cargo_dependency_metadata"

  function AddControls(files: map<Name, Row>, contents: map<Name, Content>, keep: seq<Name>,
                       s: Selection, cs: seq<Name>): Result<Selection>
    requires files.Keys <= contents.Keys
    decreases cs
  {
    if cs == [] then Ok(s)
    else if cs[0] !in files then Err("KeyError")
    else
      var n := cs[0];
      var row := files[n];
      AddControls(files, contents, keep,
                  if row.ftype == Regular && row.nlink == 1 && !Protected(n, keep)
                  then s[n := Entry(row, METADATA_KIND, contents[n])] else s,
                  cs[1..])
  }

  predicate Retirable(files: map<Name, Row>, s: set<Name>, u: UnitKey) {
    Payloads(files, u) != {} && Payloads(files, u) <= s
  }

  /** A unit retires with a payload in the inventory, and with all of them selected. */
  lemma RetirableIs(files: map<Name, Row>, s: set<Name>, u: UnitKey)
    ensures Retirable(files, s, u) <==>
            && (exists n :: n in files && Payload(u, n))
            && (forall n :: n in files && Payload(u, n) ==> n in s)
  {
    hide Payload;
    if n :| n in files && Payload(u, n) {
      assert n in Payloads(files, u);
    }
    if n :| n in Payloads(files, u) {
      assert n in files && Payload(u, n);
    }
  }

  function AddMetadata(files: map<Name, Row>, contents: map<Name, Content>, keep: seq<Name>, units: Units,
                       s: Selection): Result<Selection>
    requires files.Keys <= contents.Keys
    requires forall u :: u in units.order ==> u in units.controls
    decreases |units.order|
  {
    if units.order == [] then Ok(s)
    else
      var u := units.order[0];
      var rest := units.(order := units.order[1..]);
      if Retirable(files, s.Keys, u) then
        var s' :- AddControls(files, contents, keep, s, units.controls[u]);
        AddMetadata(files, contents, keep, rest, s')
      else AddMetadata(files, contents, keep, rest, s)
  }

  /** The order of a dictionary: every key once. */
  ghost predicate Enumerates<T(!new)>(order: seq<T>, s: set<T>) {
    (forall n :: n in order <==> n in s) && Lists.NoDuplicates(order)
  }

  function Select(files: map<Name, Row>, contents: map<Name, Content>, order: seq<Name>,
                  keep: seq<Name>, cl: Classifier): Result<Selection>
    requires files.Keys <= contents.Keys
  {
    AddMetadata(files, contents, keep, UnitTable(files, keep, cl, order),
                LinkClosed(files, Candidates(files, contents, keep, cl)))
  }

  // ----- the procedure -----

  /** Names by inode, in the order the dictionary meets them. */
  datatype Groups = Groups(ids: seq<FileId>, members: map<FileId, seq<Name>>)

  function GroupTable(files: map<Name, Row>, order: seq<Name>): (r: Groups)
    requires forall n :: n in order ==> n in files
    ensures forall id :: id in r.ids <==> id in r.members
  {
    if order == [] then Groups([], map[])
    else
      var n := order[|order| - 1];
      var before := GroupTable(files, order[..|order| - 1]);
      AddToGroup(before, files[n].id, n)
  }

  function AddToGroup(g: Groups, id: FileId, n: Name): (r: Groups)
    requires forall i :: i in g.ids <==> i in g.members
    ensures forall i :: i in r.ids <==> i in r.members
  {
    if id in g.members then g.(members := g.members[id := g.members[id] + [n]])
    else Groups(g.ids + [id], g.members[id := [n]])
  }

  /** names lists, once each, the names in order whose inode is id. */
  ghost predicate ListsGroup(files: map<Name, Row>, order: seq<Name>, names: seq<Name>, id: FileId)
    requires forall n :: n in order ==> n in files
  {
    Lists.NoDuplicates(names) && forall n :: n in names <==> n in order && files[n].id == id
  }

  ghost predicate GroupsExact(files: map<Name, Row>, order: seq<Name>, g: Groups)
    requires forall n :: n in order ==> n in files
  {
    && Lists.NoDuplicates(g.ids)
    && (forall id :: id in g.ids <==> id in g.members)
    && (forall id :: id in g.members ==> ListsGroup(files, order, g.members[id], id))
    && (forall n :: n in order ==> files[n].id in g.members)
  }

  lemma AddToGroupExact(files: map<Name, Row>, order: seq<Name>, g: Groups, n: Name)
    requires forall m :: m in order ==> m in files
    requires n in files && n !in order && GroupsExact(files, order, g)
    ensures GroupsExact(files, order + [n], AddToGroup(g, files[n].id, n))
  {
    var h := AddToGroup(g, files[n].id, n);
    forall id | id in h.members ensures ListsGroup(files, order + [n], h.members[id], id) {
      if id in g.members {
        assert ListsGroup(files, order, g.members[id], id);
      }
      if id == files[n].id {
        var before := if id in g.members then g.members[id] else [];
        assert h.members[id] == before + [n];
        assert forall m :: m in before <==> m in order && files[m].id == id;
      }
    }
  }

  lemma {:induction false} GroupTableExact(files: map<Name, Row>, order: seq<Name>)
    requires Lists.NoDuplicates(order) && forall n :: n in order ==> n in files
    ensures GroupsExact(files, order, GroupTable(files, order))
  {
    if order != [] {
      var rest, n := order[..|order| - 1], order[|order| - 1];
      assert order == rest + [n];
      GroupTableExact(files, rest);
      AddToGroupExact(files, rest, GroupTable(files, rest), n);
    }
  }

  lemma {:induction false} DistinctSize<T(!new)>(s: seq<T>, m: set<T>)
    requires Lists.NoDuplicates(s) && forall x :: x in s <==> x in m
    ensures |s| == |m|
  {
    if s == [] {
      assert m == {};
    } else {
      var rest, x := s[..|s| - 1], s[|s| - 1];
      assert s == rest + [x];
      DistinctSize(rest, m - {x});
    }
  }

  function CandidateStep(files: map<Name, Row>, contents: map<Name, Content>, keep: seq<Name>, cl: Classifier,
                         s: Selection, n: Name): Selection
    requires n in files && files.Keys <= contents.Keys
  {
    if Candidate(files, keep, cl, n) then s[n := Entry(files[n], cl(n).kind, contents[n])] else s
  }

  function CandidateScan(files: map<Name, Row>, contents: map<Name, Content>, keep: seq<Name>, cl: Classifier,
                         order: seq<Name>): Selection
    requires files.Keys <= contents.Keys && forall n :: n in order ==> n in files
  {
    if order == [] then map[]
    else CandidateStep(files, contents, keep, cl,
                       CandidateScan(files, contents, keep, cl, order[..|order| - 1]), order[|order| - 1])
  }

  lemma {:induction false} CandidateScanFinds(files: map<Name, Row>, contents: map<Name, Content>, keep: seq<Name>,
                                              cl: Classifier, order: seq<Name>)
    requires files.Keys <= contents.Keys && forall n :: n in order ==> n in files
    ensures var s := CandidateScan(files, contents, keep, cl, order);
            && (forall n :: n in s <==> n in order && Candidate(files, keep, cl, n))
            && (forall n :: n in s ==> s[n] == Entry(files[n], cl(n).kind, contents[n]))
  {
    if order != [] {
      var rest, n := order[..|order| - 1], order[|order| - 1];
      assert order == rest + [n];
      CandidateScanFinds(files, contents, keep, cl, rest);
    }
  }

  lemma CandidateScanAll(files: map<Name, Row>, contents: map<Name, Content>, keep: seq<Name>,
                         cl: Classifier, order: seq<Name>)
    requires files.Keys <= contents.Keys && Enumerates(order, files.Keys)
    ensures CandidateScan(files, contents, keep, cl, order) == Candidates(files, contents, keep, cl)
  {
    CandidateScanFinds(files, contents, keep, cl, order);
  }

  method SelectPayload(files: map<Name, Row>, contents: map<Name, Content>, order: seq<Name>,
                       keep: seq<Name>, cl: Classifier)
    returns (r: Result<Selection>)
    requires Coherent(files) && Enumerates(order, files.Keys) && files.Keys <= contents.Keys
    ensures r == Select(files, contents, order, keep, cl)
  {
    var selected: Selection := map[];
    var groups := Groups([], map[]);
    var units := Units([], map[]);
    for i := 0 to |order|
      invariant groups == GroupTable(files, order[..i])
      invariant units == UnitTable(files, keep, cl, order[..i])
      invariant selected == CandidateScan(files, contents, keep, cl, order[..i])
    {
      var name := order[i];
      var row := files[name];
      assert order[..i + 1][..i] == order[..i];
      groups := AddToGroup(groups, row.id, name);
      if Protected(name, keep) || row.ftype != Regular || cl(name).Retain? {
        continue;
      }
      var u := cl(name).unit;
      units := Units(if u in units.controls then units.order else units.order + [u],
                     units.controls[u := cl(name).controls]);
      selected := selected[name := Entry(row, cl(name).kind, contents[name])];
    }
    assert order[..|order|] == order;
    CandidateScanAll(files, contents, keep, cl, order);
    selected := SeverGroups(files, groups, selected, order);
    r := RetireMetadata(files, contents, keep, units, selected);
  }

  function Among(names: seq<Name>, s: set<Name>): seq<Name> {
    Lists.Filter(names, (n: Name) => n in s)
  }

  lemma {:induction false} AmongAll(names: seq<Name>, s: set<Name>)
    ensures forall n :: n in Among(names, s) <==> n in names && n in s
    ensures |Among(names, s)| <= |names|
    ensures |Among(names, s)| == |names| <==> (forall n :: n in names ==> n in s)
  {
    if names != [] {
      AmongAll(names[1..], s);
      assert names == [names[0]] + names[1..];
    }
  }

  function SeverOne(files: map<Name, Row>, names: seq<Name>, s: Selection): Selection
    requires s.Keys <= files.Keys
  {
    var eligible := Among(names, s.Keys);
    AmongAll(names, s.Keys);
    if eligible != [] && (|eligible| != |names| || files[Head(eligible)].nlink != |names|)
    then s - (set n | n in eligible)
    else s
  }

  function Head(s: seq<Name>): (n: Name)
    requires s != []
    ensures n in s
  {
    s[0]
  }

  lemma SeverOneCloses(files: map<Name, Row>, names: seq<Name>, s: Selection, id: FileId)
    requires Coherent(files) && s.Keys <= files.Keys
    requires Lists.NoDuplicates(names) && forall n :: n in names <==> n in files && files[n].id == id
    ensures forall n :: n in SeverOne(files, names, s) <==> n in s && (files[n].id == id ==> Unsevered(files, s.Keys, n))
    ensures forall n :: n in SeverOne(files, names, s) ==> SeverOne(files, names, s)[n] == s[n]
  {
    AmongAll(names, s.Keys);
    var eligible := Among(names, s.Keys);
    DistinctSize(names, Group(files, id));
    assert Group(files, id) <= s.Keys <==> |eligible| == |names|;
    if eligible != [] {
      var h := Head(eligible);
      forall n | n in s && files[n].id == id
        ensures Unsevered(files, s.Keys, n) <==> |eligible| == |names| && files[h].nlink == |names|
      {
        assert n in names;
      }
    }
  }

  function SeverAll(files: map<Name, Row>, groups: Groups, s: Selection): Selection
    requires s.Keys <= files.Keys && forall id :: id in groups.ids ==> id in groups.members
    decreases |groups.ids|
  {
    if groups.ids == [] then s
    else SeverAll(files, groups.(ids := groups.ids[1..]), SeverOne(files, groups.members[groups.ids[0]], s))
  }

  lemma {:induction false} SeverEach(files: map<Name, Row>, order: seq<Name>, groups: Groups, s: Selection)
    requires Coherent(files) && s.Keys <= files.Keys && Enumerates(order, files.Keys)
    requires Lists.NoDuplicates(groups.ids) && forall id :: id in groups.ids ==> id in groups.members
    requires forall id :: id in groups.members ==> ListsGroup(files, order, groups.members[id], id)
    ensures forall n :: n in SeverAll(files, groups, s)
                        <==> n in s && (files[n].id in groups.ids ==> Unsevered(files, s.Keys, n))
    ensures forall n :: n in SeverAll(files, groups, s) ==> SeverAll(files, groups, s)[n] == s[n]
    decreases |groups.ids|
  {
    if groups.ids != [] {
      var id := groups.ids[0];
      var names := groups.members[id];
      var s1 := SeverOne(files, names, s);
      SeverOneCloses(files, names, s, id);
      SeverEach(files, order, groups.(ids := groups.ids[1..]), s1);
      assert groups.ids == [id] + groups.ids[1..];
      forall n | n in s && files[n].id != id
        ensures Unsevered(files, s.Keys, n) <==> Unsevered(files, s1.Keys, n)
      {
        forall m | m in Group(files, files[n].id) ensures m in s <==> m in s1 {}
      }
    }
  }

  lemma SeverAllCloses(files: map<Name, Row>, order: seq<Name>, groups: Groups, s: Selection)
    requires Coherent(files) && Enumerates(order, files.Keys) && s.Keys <= files.Keys
    requires groups == GroupTable(files, order)
    ensures SeverAll(files, groups, s) == LinkClosed(files, s)
  {
    GroupTableExact(files, order);
    EveryGroupListed(files, order, groups, s);
    SeverEach(files, order, groups, s);
    LinkClosedIs(files, s, SeverAll(files, groups, s));
  }

  lemma EveryGroupListed(files: map<Name, Row>, order: seq<Name>, groups: Groups, s: Selection)
    requires Enumerates(order, files.Keys) && s.Keys <= files.Keys
    requires forall id :: id in groups.ids <==> id in groups.members
    requires forall n :: n in order ==> files[n].id in groups.members
    ensures forall n :: n in s ==> files[n].id in groups.ids
  {
    forall n | n in s ensures files[n].id in groups.ids {
      assert n in order;
    }
  }

  lemma LinkClosedIs(files: map<Name, Row>, s: Selection, r: Selection)
    requires s.Keys <= files.Keys
    requires forall n :: n in r <==> n in s && Unsevered(files, s.Keys, n)
    requires forall n :: n in r ==> r[n] == s[n]
    ensures r == LinkClosed(files, s)
  {
  }

  /** Never sever a retained, external or unknown hard-link peer. */
  method SeverGroups(files: map<Name, Row>, groups: Groups, eligible: Selection, ghost order: seq<Name>)
    returns (selected: Selection)
    requires Coherent(files) && Enumerates(order, files.Keys) && eligible.Keys <= files.Keys
    requires groups == GroupTable(files, order)
    ensures selected == LinkClosed(files, eligible)
    ensures forall n :: n in selected <==> n in eligible && Unsevered(files, eligible.Keys, n)
  {
    SeverAllCloses(files, order, groups, eligible);
    selected := eligible;
    for i := 0 to |groups.ids|
      invariant selected.Keys <= files.Keys
      invariant SeverAll(files, groups, eligible)
             == SeverAll(files, groups.(ids := groups.ids[i..]), selected)
    {
      assert groups.ids[i..][1..] == groups.ids[i + 1..];
      var names := groups.members[groups.ids[i]];
      var kept := Among(names, selected.Keys);
      AmongAll(names, selected.Keys);
      if kept != [] && (|kept| != |names| || files[Head(kept)].nlink != |names|) {
        selected := selected - (set n | n in kept);
      }
    }
  }

  /** Dep-info and fingerprints go only with all compiler payloads of their unit. */
  method RetireMetadata(files: map<Name, Row>, contents: map<Name, Content>, keep: seq<Name>,
                        units: Units, closed: Selection)
    returns (r: Result<Selection>)
    requires files.Keys <= contents.Keys
    requires forall u :: u in units.order ==> u in units.controls
    ensures r == AddMetadata(files, contents, keep, units, closed)
    ensures r.Ok? && RowsMatch(files, contents, closed) ==>
              forall n :: n in r.value ==>
                n in closed || (SoleLink(files, keep, n) && Licensed(files, units, r.value.Keys, n))
  {
    if AddMetadata(files, contents, keep, units, closed).Ok? && RowsMatch(files, contents, closed) {
      AddMetadataAdds(files, contents, keep, units, closed);
    }
    var selected := closed;
    var i := 0;
    while i < |units.order|
      invariant 0 <= i <= |units.order|
      invariant AddMetadata(files, contents, keep, units, closed)
             == AddMetadata(files, contents, keep, units.(order := units.order[i..]), selected)
    {
      var u := units.order[i];
      assert units.order[i..][1..] == units.order[i + 1..];
      i := i + 1;
      var payloads := Payloads(files, u);
      if payloads == {} || exists n :: n in payloads && n !in selected {
        continue;
      }
      ghost var start := selected;
      var paths := units.controls[u];
      for k := 0 to |paths|
        invariant AddControls(files, contents, keep, start, paths) == AddControls(files, contents, keep, selected, paths[k..])
      {
        assert paths[k..][1..] == paths[k + 1..];
        var name := paths[k];
        if name !in files {
          return Err("KeyError");
        }
        var row := files[name];
        if row.ftype == Regular && row.nlink == 1 && !Protected(name, keep) {
          selected := selected[name := Entry(row, METADATA_KIND, contents[name])];
        }
      }
    }
    r := Ok(selected);
  }

  // ----- what a selection promises -----

  ghost predicate RowsMatch(files: map<Name, Row>, contents: map<Name, Content>, s: Selection)
    requires files.Keys <= contents.Keys
  {
    forall n :: n in s ==> n in files && s[n].row == files[n] && s[n].sha == contents[n]
  }

  /** A metadata file that the unit pass may add. */
  predicate SoleLink(files: map<Name, Row>, keep: seq<Name>, n: Name) {
    n in files && files[n].ftype == Regular && files[n].nlink == 1 && !Protected(n, keep)
  }

  lemma {:induction false} AddControlsAdds(files: map<Name, Row>, contents: map<Name, Content>, keep: seq<Name>,
                                           s: Selection, cs: seq<Name>)
    requires files.Keys <= contents.Keys
    requires RowsMatch(files, contents, s) && AddControls(files, contents, keep, s, cs).Ok?
    ensures var r := AddControls(files, contents, keep, s, cs).value;
            && RowsMatch(files, contents, r) && s.Keys <= r.Keys
            && (forall n :: n in r ==> n in s || (SoleLink(files, keep, n) && n in cs))
            && (forall n :: n in r ==> (n in s && r[n] == s[n]) || r[n].kind == METADATA_KIND)
    decreases cs
  {
    if cs != [] {
      var n := cs[0];
      var s1 := if SoleLink(files, keep, n) then s[n := Entry(files[n], METADATA_KIND, contents[n])] else s;
      AddControlsAdds(files, contents, keep, s1, cs[1..]);
      assert cs[0] in cs && forall c :: c in cs[1..] ==> c in cs;
    }
  }

  /** The unit that licenses a metadata file: it lists the file, and all its compiler payloads are selected. */
  ghost predicate Licensed(files: map<Name, Row>, units: Units, s: set<Name>, n: Name)
    requires forall u :: u in units.order ==> u in units.controls
  {
    exists u :: u in units.order && Retirable(files, s, u) && n in units.controls[u]
  }

  lemma {:induction false} AddMetadataAdds(files: map<Name, Row>, contents: map<Name, Content>, keep: seq<Name>,
                                           units: Units, s: Selection)
    requires files.Keys <= contents.Keys
    requires forall u :: u in units.order ==> u in units.controls
    requires RowsMatch(files, contents, s) && AddMetadata(files, contents, keep, units, s).Ok?
    ensures var r := AddMetadata(files, contents, keep, units, s).value;
            && RowsMatch(files, contents, r) && s.Keys <= r.Keys
            && (forall n :: n in r ==> n in s || (SoleLink(files, keep, n) && Licensed(files, units, r.Keys, n)))
            && (forall n :: n in r ==> (n in s && r[n] == s[n]) || r[n].kind == METADATA_KIND)
    decreases |units.order|
  {
    if units.order != [] {
      var u := units.order[0];
      var rest := units.(order := units.order[1..]);
      assert units.order == [u] + rest.order;
      var r := AddMetadata(files, contents, keep, units, s).value;
      var s1 := s;
      if Retirable(files, s.Keys, u) {
        s1 := AddControls(files, contents, keep, s, units.controls[u]).value;
        AddControlsAdds(files, contents, keep, s, units.controls[u]);
      }
      AddMetadataAdds(files, contents, keep, rest, s1);
      forall n | n in r && n !in s ensures SoleLink(files, keep, n) && Licensed(files, units, r.Keys, n) {
        if n in s1 {
          assert u in units.order && Retirable(files, r.Keys, u);
        } else {
          assert Licensed(files, rest, r.Keys, n);
          var v :| v in rest.order && Retirable(files, r.Keys, v) && n in rest.controls[v];
          assert v in units.order;
        }
      }
    }
  }

  lemma CandidateRows(files: map<Name, Row>, contents: map<Name, Content>, keep: seq<Name>, cl: Classifier)
    requires files.Keys <= contents.Keys
    ensures RowsMatch(files, contents, LinkClosed(files, Candidates(files, contents, keep, cl)))
  {
  }

  /** Every selected file is unprotected, regular and carries its inventory row; it is an eligible payload with no
      peer outside the selection, or the only link of a metadata file whose unit retires all its payloads. */
  lemma SelectionSound(files: map<Name, Row>, contents: map<Name, Content>, order: seq<Name>,
                       keep: seq<Name>, cl: Classifier)
    requires Coherent(files) && Enumerates(order, files.Keys) && files.Keys <= contents.Keys
    requires Select(files, contents, order, keep, cl).Ok?
    ensures var s := Select(files, contents, order, keep, cl).value;
            var units := UnitTable(files, keep, cl, order);
            && RowsMatch(files, contents, s)
            && (forall n :: n in s ==> files[n].ftype == Regular)
            && (forall n, p :: n in s && p in keep ==> !(p <= n))
            && (forall n :: n in s ==> s[n].kind == "cargo_dependency_metadata"
                                       || (cl(n).Qualify? && s[n].kind == cl(n).kind))
            && (forall n :: n in s ==> Unsevered(files, s.Keys, n) || files[n].nlink == 1)
            && (forall n :: n in s && !Candidate(files, keep, cl, n) ==> Licensed(files, units, s.Keys, n))
  {
    var c := Candidates(files, contents, keep, cl);
    var l := LinkClosed(files, c);
    CandidateRows(files, contents, keep, cl);
    AddMetadataAdds(files, contents, keep, UnitTable(files, keep, cl, order), l);
    var s := Select(files, contents, order, keep, cl).value;
    forall n | n in s ensures Unsevered(files, s.Keys, n) || files[n].nlink == 1 {
      if n in l {
        forall m | m in Group(files, files[n].id) ensures m in l {
          assert Group(files, files[m].id) == Group(files, files[n].id);
          assert m in c && Unsevered(files, c.Keys, m);
        }
      }
    }
  }

  lemma InventoryGroups(t: Tree, alloc: Allocation)
    requires WellFormed(t)
    ensures Coherent(Inventory(t, alloc))
    ensures forall id :: Group(Inventory(t, alloc), id) == Links(t, id)
  {
  }

  /** Hard-link groups are kept whole: a selection takes every link of an inode, those outside the target included,
      or none of them. */
  lemma SelectionTakesWholeInodes(t: Tree, alloc: Allocation, order: seq<Name>, keep: seq<Name>, cl: Classifier)
    requires WellFormed(t) && Enumerates(order, t.names.Keys)
    requires Select(Inventory(t, alloc), Contents(t), order, keep, cl).Ok?
    ensures TakesWholeInodes(t, Select(Inventory(t, alloc), Contents(t), order, keep, cl).value.Keys)
  {
    var files := Inventory(t, alloc);
    var s := Select(files, Contents(t), order, keep, cl).value;
    InventoryGroups(t, alloc);
    assert files.Keys == t.names.Keys;
    SelectionSound(files, Contents(t), order, keep, cl);
    forall n | n in s.Keys ensures n in t.names && t.names[n] in t.inodes && WholeInode(t, s.Keys, t.names[n]) {
      var id := t.names[n];
      assert files[n] == Metadata(t, n, alloc) && files[n].id == id;
      assert Group(files, id) == Links(t, id);
      if !Unsevered(files, s.Keys, n) {
        assert n in Links(t, id) && |Links(t, id)| <= 1;
        Lists.SubsetSize({n}, Links(t, id));
        assert Links(t, id) == {n};
      }
    }
  }

  lemma {:induction false} AddControlsComplete(files: map<Name, Row>, contents: map<Name, Content>, keep: seq<Name>,
                                           s: Selection, cs: seq<Name>)
    requires files.Keys <= contents.Keys
    requires RowsMatch(files, contents, s) && AddControls(files, contents, keep, s, cs).Ok?
    ensures forall c :: c in cs && SoleLink(files, keep, c) ==> c in AddControls(files, contents, keep, s, cs).value
    decreases cs
  {
    if cs != [] {
      var n := cs[0];
      var s1 := if SoleLink(files, keep, n) then s[n := Entry(files[n], METADATA_KIND, contents[n])] else s;
      AddControlsComplete(files, contents, keep, s1, cs[1..]);
      AddControlsAdds(files, contents, keep, s1, cs[1..]);
      assert cs == [cs[0]] + cs[1..];
    }
  }

  lemma {:induction false} AddMetadataComplete(files: map<Name, Row>, contents: map<Name, Content>, keep: seq<Name>,
                                           units: Units, s: Selection,
                                               u: UnitKey, c: Name)
    requires files.Keys <= contents.Keys
    requires forall v :: v in units.order ==> v in units.controls
    requires RowsMatch(files, contents, s) && AddMetadata(files, contents, keep, units, s).Ok?
    requires u in units.order && Retirable(files, s.Keys, u) && c in units.controls[u] && SoleLink(files, keep, c)
    ensures c in AddMetadata(files, contents, keep, units, s).value
    decreases |units.order|
  {
    var v := units.order[0];
    var rest := units.(order := units.order[1..]);
    var s1 := s;
    if Retirable(files, s.Keys, v) {
      s1 := AddControls(files, contents, keep, s, units.controls[v]).value;
      AddControlsAdds(files, contents, keep, s, units.controls[v]);
      AddControlsComplete(files, contents, keep, s, units.controls[v]);
    }
    AddMetadataAdds(files, contents, keep, rest, s1);
    if u != v {
      assert units.order == [v] + rest.order;
      AddMetadataComplete(files, contents, keep, rest, s1, u, c);
    }
  }

  /** Nothing that qualifies is left behind: every payload whose inode qualifies whole is selected, and so is every
      sole-link metadata file of a unit all of whose payloads do. */
  lemma SelectionComplete(files: map<Name, Row>, contents: map<Name, Content>, order: seq<Name>,
                          keep: seq<Name>, cl: Classifier)
    requires files.Keys <= contents.Keys
    requires Select(files, contents, order, keep, cl).Ok?
    ensures var s := Select(files, contents, order, keep, cl).value;
            var units := UnitTable(files, keep, cl, order);
            var closed := LinkClosed(files, Candidates(files, contents, keep, cl));
            && (forall n :: n in files && files[n].nlink == |set m | m in files && files[m].id == files[n].id|
                            && (forall m :: m in files && files[m].id == files[n].id ==>
                                  files[m].ftype == Regular && cl(m).Qualify? && forall p :: p in keep ==> !(p <= m))
                  ==> n in s)
            && (forall u, c :: u in units.order && Retirable(files, closed.Keys, u) && c in units.controls[u]
                               && SoleLink(files, keep, c)
                  ==> c in s)
  {
    var s := Select(files, contents, order, keep, cl).value;
    var units := UnitTable(files, keep, cl, order);
    var all := Candidates(files, contents, keep, cl);
    var closed := LinkClosed(files, all);
    CandidateRows(files, contents, keep, cl);
    AddMetadataAdds(files, contents, keep, units, closed);
    forall n | n in files && files[n].nlink == |set m | m in files && files[m].id == files[n].id|
               && (forall m :: m in files && files[m].id == files[n].id ==>
                     files[m].ftype == Regular && cl(m).Qualify? && forall p :: p in keep ==> !(p <= m))
      ensures n in s
    {
      assert Group(files, files[n].id) == set m | m in files && files[m].id == files[n].id;
      assert forall m :: m in Group(files, files[n].id) ==> Candidate(files, keep, cl, m);
      assert n in Group(files, files[n].id);
      assert Unsevered(files, all.Keys, n);
      assert n in closed;
    }
    forall u, c | u in units.order && Retirable(files, closed.Keys, u) && c in units.controls[u]
                  && SoleLink(files, keep, c)
      ensures c in s
    {
      AddMetadataComplete(files, contents, keep, units, closed, u, c);
    }
  }

  // ----- units, and what is refused -----

  /** The candidate at a place of the order, if it belongs to a unit. */
  predicate OfUnit(files: map<Name, Row>, keep: seq<Name>, cl: Classifier, n: Name, u: UnitKey) {
    Candidate(files, keep, cl, n) && cl(n).unit == u
  }

  /** The units are those of the candidates, each listed once, and the last candidate of a unit names its control files. */
  lemma {:induction false} UnitTableIs(files: map<Name, Row>, keep: seq<Name>, cl: Classifier, order: seq<Name>)
    ensures var r := UnitTable(files, keep, cl, order);
      && Lists.NoDuplicates(r.order)
      && (forall u :: u in r.order <==> exists i :: 0 <= i < |order| && OfUnit(files, keep, cl, order[i], u))
      && (forall u, i :: u in r.order && 0 <= i < |order| && OfUnit(files, keep, cl, order[i], u)
                         && (forall j :: i < j < |order| ==> !OfUnit(files, keep, cl, order[j], u))
            ==> r.controls[u] == cl(order[i]).controls)
  {
    if order != [] {
      var front, n := order[..|order| - 1], order[|order| - 1];
      UnitTableIs(files, keep, cl, front);
      var before, r := UnitTable(files, keep, cl, front), UnitTable(files, keep, cl, order);
      assert forall i :: 0 <= i < |front| ==> front[i] == order[i];
      forall u ensures u in r.order <==> exists i :: 0 <= i < |order| && OfUnit(files, keep, cl, order[i], u) {
        if OfUnit(files, keep, cl, n, u) {
          assert OfUnit(files, keep, cl, order[|order| - 1], u);
        }
        if u in before.order {
          var i :| 0 <= i < |front| && OfUnit(files, keep, cl, front[i], u);
          assert OfUnit(files, keep, cl, order[i], u);
        }
        if i :| 0 <= i < |order| && OfUnit(files, keep, cl, order[i], u) {
          assert i < |front| ==> OfUnit(files, keep, cl, front[i], u);
        }
      }
      forall u, i | u in r.order && 0 <= i < |order| && OfUnit(files, keep, cl, order[i], u)
                    && (forall j :: i < j < |order| ==> !OfUnit(files, keep, cl, order[j], u))
        ensures r.controls[u] == cl(order[i]).controls
      {
        if i < |front| {
          assert OfUnit(files, keep, cl, front[i], u) && !OfUnit(files, keep, cl, order[|order| - 1], u);
          assert forall j :: i < j < |front| ==> !OfUnit(files, keep, cl, front[j], u) by {
            assert forall j :: i < j < |front| ==> front[j] == order[j];
          }
          assert u in before.order;
        }
      }
    }
  }

  lemma {:induction false} AddControlsFails(files: map<Name, Row>, contents: map<Name, Content>, keep: seq<Name>,
                                            s: Selection, cs: seq<Name>)
    requires files.Keys <= contents.Keys
    ensures AddControls(files, contents, keep, s, cs).Err? <==> exists c :: c in cs && c !in files
    decreases cs
  {
    if cs != [] && cs[0] in files {
      var n := cs[0];
      AddControlsFails(files, contents, keep,
                       if files[n].ftype == Regular && files[n].nlink == 1 && !Protected(n, keep)
                       then s[n := Entry(files[n], METADATA_KIND, contents[n])] else s, cs[1..]);
      assert cs == [n] + cs[1..];
    } else if cs != [] {
      assert cs[0] in cs;
    }
  }

  /** A unit that was found has a control file that the inventory does not. */
  predicate MissingControl(files: map<Name, Row>, units: Units, u: UnitKey, c: Name) {
    u in units.order && u in units.controls && c in units.controls[u] && c !in files
  }

  ghost predicate SomeMissing(files: map<Name, Row>, units: Units) {
    exists u, c :: MissingControl(files, units, u, c)
  }

  /** A unit that retires has a control file that is not in the inventory. */
  ghost predicate RetiresMissing(files: map<Name, Row>, units: Units, s: set<Name>) {
    exists u, c :: MissingControl(files, units, u, c) && Retirable(files, s, u)
  }

  lemma {:induction false} AddMetadataFails(files: map<Name, Row>, contents: map<Name, Content>, keep: seq<Name>,
                                            units: Units, s: Selection)
    requires files.Keys <= contents.Keys && RowsMatch(files, contents, s)
    requires forall u :: u in units.order ==> u in units.controls
    ensures AddMetadata(files, contents, keep, units, s).Err? ==> SomeMissing(files, units)
    ensures RetiresMissing(files, units, s.Keys) ==>
              AddMetadata(files, contents, keep, units, s).Err?
    decreases |units.order|
  {
    hide Retirable;
    if units.order != [] {
      var u, rest := units.order[0], units.(order := units.order[1..]);
      assert units.order == [u] + rest.order;
      AddControlsFails(files, contents, keep, s, units.controls[u]);
      assert forall v, c :: MissingControl(files, rest, v, c) ==> MissingControl(files, units, v, c);
      assert forall v, c :: MissingControl(files, units, v, c) && v != u ==> MissingControl(files, rest, v, c);
      var s1 := AddControls(files, contents, keep, s, units.controls[u]);
      if !Retirable(files, s.Keys, u) {
        AddMetadataFails(files, contents, keep, rest, s);
      } else if s1.Ok? {
        AddControlsAdds(files, contents, keep, s, units.controls[u]);
        AddMetadataFails(files, contents, keep, rest, s1.value);
        forall v | Retirable(files, s.Keys, v) ensures Retirable(files, s1.value.Keys, v) {
          StillRetirable(files, s.Keys, s1.value.Keys, v);
        }
      } else {
        var c :| c in units.controls[u] && c !in files;
        assert MissingControl(files, units, u, c);
      }
    }
  }

  lemma StillRetirable(files: map<Name, Row>, s: set<Name>, more: set<Name>, u: UnitKey)
    requires Retirable(files, s, u) && s <= more
    ensures Retirable(files, more, u)
  {
  }

  /** A selection fails only for a control file that is not in the inventory, and does so whenever its unit retires. */
  lemma SelectionFails(files: map<Name, Row>, contents: map<Name, Content>, order: seq<Name>, keep: seq<Name>, cl: Classifier)
    requires files.Keys <= contents.Keys
    ensures var units := UnitTable(files, keep, cl, order);
      var closed := LinkClosed(files, Candidates(files, contents, keep, cl));
      && (Select(files, contents, order, keep, cl).Err? ==> SomeMissing(files, units))
      && (RetiresMissing(files, units, closed.Keys) ==>
            Select(files, contents, order, keep, cl).Err?)
  {
    hide UnitTable, Candidate, AddMetadata, Unsevered, SomeMissing, RetiresMissing;
    CandidateRows(files, contents, keep, cl);
    AddMetadataFails(files, contents, keep, UnitTable(files, keep, cl, order),
                     LinkClosed(files, Candidates(files, contents, keep, cl)));
  }

  // ----- allocation drift does not change a selection -----

  function StableSelection(s: Selection): Selection {
    map n | n in s :: s[n].(row := Stable(s[n].row))
  }

  /** The same inventory but for measured allocation. */
  ghost predicate Alike(f: map<Name, Row>, g: map<Name, Row>) {
    f.Keys == g.Keys && forall n :: n in f ==> Stable(f[n]) == Stable(g[n])
  }

  ghost predicate AlikeSelections(s: Selection, r: Selection) {
    s.Keys == r.Keys && forall n :: n in s ==> s[n].(row := Stable(s[n].row)) == r[n].(row := Stable(r[n].row))
  }

  lemma AlikeRows(f: map<Name, Row>, g: map<Name, Row>)
    requires Alike(f, g)
    ensures StableRows(f) == StableRows(g)
    ensures forall n :: n in f ==> f[n].id == g[n].id && f[n].nlink == g[n].nlink && f[n].ftype == g[n].ftype
    ensures forall id :: Group(f, id) == Group(g, id)
  {
    forall n | n in f ensures f[n].id == g[n].id && f[n].nlink == g[n].nlink && f[n].ftype == g[n].ftype {
      assert Stable(f[n]) == Stable(g[n]);
    }
  }

  lemma {:induction false} AlikeUnits(f: map<Name, Row>, g: map<Name, Row>, keep: seq<Name>, cl: Classifier, order: seq<Name>)
    requires Alike(f, g)
    ensures UnitTable(f, keep, cl, order) == UnitTable(g, keep, cl, order)
  {
    AlikeRows(f, g);
    if order != [] {
      AlikeUnits(f, g, keep, cl, order[..|order| - 1]);
    }
  }

  lemma {:induction false} AlikeControls(f: map<Name, Row>, g: map<Name, Row>, contents: map<Name, Content>,
                                         keep: seq<Name>, s: Selection, r: Selection, cs: seq<Name>)
    requires Alike(f, g) && AlikeSelections(s, r) && f.Keys <= contents.Keys
    ensures var x, y := AddControls(f, contents, keep, s, cs), AddControls(g, contents, keep, r, cs);
            (x.Ok? <==> y.Ok?) && (x.Ok? ==> AlikeSelections(x.value, y.value))
    decreases cs
  {
    AlikeRows(f, g);
    if cs != [] && cs[0] in f {
      var n := cs[0];
      var add := SoleLink(f, keep, n);
      AlikeControls(f, g, contents, keep,
                    if add then s[n := Entry(f[n], METADATA_KIND, contents[n])] else s,
                    if add then r[n := Entry(g[n], METADATA_KIND, contents[n])] else r, cs[1..]);
    }
  }

  lemma {:induction false} AlikeMetadata(f: map<Name, Row>, g: map<Name, Row>, contents: map<Name, Content>,
                                         keep: seq<Name>, units: Units, s: Selection, r: Selection)
    requires Alike(f, g) && AlikeSelections(s, r) && f.Keys <= contents.Keys
    requires forall u :: u in units.order ==> u in units.controls
    ensures var x, y := AddMetadata(f, contents, keep, units, s), AddMetadata(g, contents, keep, units, r);
            (x.Ok? <==> y.Ok?) && (x.Ok? ==> AlikeSelections(x.value, y.value))
    decreases |units.order|
  {
    if units.order != [] {
      var u := units.order[0];
      var rest := units.(order := units.order[1..]);
      assert Payloads(f, u) == Payloads(g, u);
      if Retirable(f, s.Keys, u) {
        AlikeControls(f, g, contents, keep, s, r, units.controls[u]);
        var x, y := AddControls(f, contents, keep, s, units.controls[u]), AddControls(g, contents, keep, r, units.controls[u]);
        if x.Ok? {
          AlikeMetadata(f, g, contents, keep, rest, x.value, y.value);
        }
      } else {
        AlikeMetadata(f, g, contents, keep, rest, s, r);
      }
    }
  }

  lemma AlikeClosures(f: map<Name, Row>, g: map<Name, Row>, contents: map<Name, Content>, keep: seq<Name>, cl: Classifier)
    requires Alike(f, g) && f.Keys <= contents.Keys
    ensures AlikeSelections(LinkClosed(f, Candidates(f, contents, keep, cl)), LinkClosed(g, Candidates(g, contents, keep, cl)))
  {
    AlikeRows(f, g);
    assert Candidates(f, contents, keep, cl).Keys == Candidates(g, contents, keep, cl).Keys;
  }

  /** A selection derived again after allocations drifted is the same but for the allocations. */
  lemma SelectionStable(f: map<Name, Row>, g: map<Name, Row>, contents: map<Name, Content>, order: seq<Name>,
                        keep: seq<Name>, cl: Classifier)
    requires Alike(f, g) && f.Keys <= contents.Keys
    ensures var x, y := Select(f, contents, order, keep, cl), Select(g, contents, order, keep, cl);
            (x.Ok? <==> y.Ok?) && (x.Ok? ==> StableSelection(x.value) == StableSelection(y.value))
  {
    AlikeUnits(f, g, keep, cl, order);
    AlikeClosures(f, g, contents, keep, cl);
    AlikeMetadata(f, g, contents, keep, UnitTable(f, keep, cl, order),
                  LinkClosed(f, Candidates(f, contents, keep, cl)), LinkClosed(g, Candidates(g, contents, keep, cl)));
  }
}
