/** The body-free manifest of a Worker's modules, and comparing two of them. */
module ModuleManifest {
  import opened Results
  import opened Ordering
  import Texts
  import Lists

  datatype ModuleDigest = ModuleDigest(name: string, contentType: string, byteCount: nat, sha: string)
  datatype Manifest = Manifest(mainModule: string, modules: seq<ModuleDigest>)

  const MODULE_LIMIT := 256
  const BYTE_LIMIT := 32 * 1024 * 1024
  const NAME_LIMIT := 512
  const TYPE_LIMIT := 128

  // ----- one module -----

  function Stripped(name: string): string {
    if |name| >= 2 && name[..2] == "./" then name[2..] else name
  }

  predicate NameChar(c: char) {
    c != '\\' && c as int >= 0x20 && c as int != 0x7F
  }

  predicate SafeName(full: string) {
    var name := Stripped(full);
    && name != "" && |full| <= NAME_LIMIT
    && (forall i :: 0 <= i < |name| ==> NameChar(name[i]))
    && (forall s :: s in Texts.Split(name, '/') ==> s != "" && s != "." && s != "..")
  }

  predicate PrintableType(t: string) {
    1 <= |t| <= TYPE_LIMIT && forall i :: 0 <= i < |t| ==> ' ' <= t[i] <= '~'
  }

  predicate HashText(s: string) {
    |s| >= 7 && s[..7] == "sha256:" && Texts.HexText(s[7..], 64)
  }

  predicate Admissible(m: ModuleDigest) {
    HashText(m.sha) && SafeName(m.name) && PrintableType(m.contentType)
  }

  // ----- what makes a module admissible -----

  predicate ProperSegment(s: string) {
    && s != "" && s != "." && s != ".."
    && forall i :: 0 <= i < |s| ==> s[i] != '/' && s[i] != '\\' && 0x20 <= s[i] as int && s[i] as int != 0x7F
  }

  ghost predicate PathOf(name: string, parts: seq<string>) {
    && parts != [] && (forall k :: 0 <= k < |parts| ==> ProperSegment(parts[k]))
    && (name == Texts.Joined(parts, '/') || name == "./" + Texts.Joined(parts, '/'))
  }

  predicate Named(s: string) {
    forall i :: 0 <= i < |s| ==> NameChar(s[i])
  }

  lemma NamedJoins(a: string, b: string)
    ensures Named(a + b) <==> Named(a) && Named(b)
  {
    var s := a + b;
    if Named(s) {
      assert forall i :: 0 <= i < |a| ==> a[i] == s[i];
      assert forall i :: 0 <= i < |b| ==> b[i] == s[|a| + i];
    }
  }

  lemma {:induction false} JoinedChars(parts: seq<string>)
    requires parts != []
    ensures Named(Texts.Joined(parts, '/')) <==> forall k :: 0 <= k < |parts| ==> Named(parts[k])
  {
    if |parts| > 1 {
      hide Named;
      var first, rest := parts[0], Texts.Joined(parts[1..], '/');
      JoinedChars(parts[1..]);
      NamedJoins(first + "/", rest);
      NamedJoins(first, "/");
      assert Named("/") by {
        SlashNamed();
      }
      assert forall k :: 0 < k < |parts| ==> parts[k] == parts[1..][k - 1];
    }
  }

  lemma SlashNamed()
    ensures Named("/")
  {
  }

  /** A stripped name never starts where a path of proper segments does. */
  lemma ProperStart(parts: seq<string>)
    requires parts != [] && ProperSegment(parts[0])
    ensures Stripped(Texts.Joined(parts, '/')) == Texts.Joined(parts, '/') != ""
  {
    var name, first := Texts.Joined(parts, '/'), parts[0];
    assert name[0] == first[0];
    assert |first| > 1 ==> name[1] == first[1];
    assert |first| == 1 ==> first == [first[0]];
    assert |name| >= 2 ==> name[..2] == [name[0], name[1]];
  }

  /** A name is safe exactly when it is proper segments joined by slashes, perhaps behind a dot and a slash. */
  lemma SafeExactly(name: string)
    ensures SafeName(name) <==> |name| <= 512 && exists parts :: PathOf(name, parts)
  {
    hide Texts.Joined, Texts.Split;
    if SafeName(name) {
      var path := Stripped(name);
      var parts := Texts.Split(path, '/');
      Texts.SplitJoins(path, '/');
      JoinedChars(parts);
      assert |name| >= 2 && name[..2] == "./" ==> name == "./" + path;
      SegmentsProper(path);
      assert PathOf(name, parts);
    }
    if parts :| PathOf(name, parts) {
      PathIsSafe(name, parts);
    }
  }

  lemma SegmentsProper(path: string)
    requires forall i :: 0 <= i < |path| ==> NameChar(path[i])
    requires forall s :: s in Texts.Split(path, '/') ==> s != "" && s != "." && s != ".."
    ensures forall k :: 0 <= k < |Texts.Split(path, '/')| ==> ProperSegment(Texts.Split(path, '/')[k])
  {
    hide Texts.Joined, Texts.Split;
    var parts := Texts.Split(path, '/');
    Texts.SplitJoins(path, '/');
    JoinedChars(parts);
    forall k | 0 <= k < |parts| ensures ProperSegment(parts[k]) {
      assert parts[k] in parts;
      forall i | 0 <= i < |parts[k]| ensures NameChar(parts[k][i]) && parts[k][i] != '/' {
        assert parts[k][i] in parts[k];
      }
    }
  }

  lemma PathIsSafe(name: string, parts: seq<string>)
    requires PathOf(name, parts)
    ensures |name| <= 512 ==> SafeName(name)
  {
    hide Texts.Joined, Texts.Split;
    ProperStart(parts);
    JoinedChars(parts);
    Texts.JoinedSplits(parts, '/');
    if name != Texts.Joined(parts, '/') {
      assert name[2..] == Texts.Joined(parts, '/') && name[..2] == "./";
    }
  }

  lemma AdmissibleExactly(m: ModuleDigest)
    ensures Admissible(m) <==>
            && (|m.name| <= 512 && exists parts :: PathOf(m.name, parts))
            && (1 <= |m.contentType| <= 128
                && forall i :: 0 <= i < |m.contentType| ==> 0x20 <= m.contentType[i] as int <= 0x7E)
            && (|m.sha| == 71 && m.sha[..7] == "sha256:" && Texts.HexText(m.sha[7..], 64))
  {
    hide PathOf, SafeName;
    SafeExactly(m.name);
  }

  // ----- the manifest -----

  function Total(modules: seq<ModuleDigest>): nat {
    if modules == [] then 0 else Total(modules[..|modules| - 1]) + modules[|modules| - 1].byteCount
  }

  function NameKey(m: ModuleDigest): Text {
    Codes(m.name)
  }

  function StrippedKey(m: ModuleDigest): Text {
    Codes(Stripped(m.name))
  }

  ghost predicate DistinctNames(modules: seq<ModuleDigest>) {
    Keyed(modules, StrippedKey)
  }

  /** What a manifest must be to be accepted, said without its order. */
  ghost predicate Acceptable(mainModule: string, modules: seq<ModuleDigest>) {
    && 1 <= |modules| <= MODULE_LIMIT
    && (forall i :: 0 <= i < |modules| ==> Admissible(modules[i]))
    && DistinctNames(modules)
    && Total(modules) <= BYTE_LIMIT
    && exists i :: 0 <= i < |modules| && modules[i].name == mainModule
  }

  /** What an acceptable list comes to: one to 256 modules, at most 32 MiB of them, no two of them of one name up to
      a leading dot and slash, and the entry point among them. */
  lemma AcceptableExactly(mainModule: string, modules: seq<ModuleDigest>)
    ensures Acceptable(mainModule, modules) <==>
            && 1 <= |modules| <= 256 && Total(modules) <= 33554432
            && (forall i :: 0 <= i < |modules| ==> Admissible(modules[i]))
            && (forall i, j :: 0 <= i < j < |modules| ==> Stripped(modules[i].name) != Stripped(modules[j].name))
            && exists i :: 0 <= i < |modules| && modules[i].name == mainModule
  {
    hide Admissible, Stripped, Codes, Total;
    forall i, j | 0 <= i < j < |modules|
      ensures StrippedKey(modules[i]) == StrippedKey(modules[j])
              <==> Stripped(modules[i].name) == Stripped(modules[j].name)
    {
      if StrippedKey(modules[i]) == StrippedKey(modules[j]) {
        CodesInjective(Stripped(modules[i].name), Stripped(modules[j].name));
      }
    }
  }

  lemma {:induction false} TotalGrows(modules: seq<ModuleDigest>, i: nat)
    requires i <= |modules|
    ensures Total(modules[..i]) <= Total(modules)
    decreases |modules|
  {
    if i < |modules| {
      var front := modules[..|modules| - 1];
      TotalGrows(front, i);
      assert front[..i] == modules[..i];
    } else {
      assert modules[..i] == modules;
    }
  }

  lemma KeyedStep(modules: seq<ModuleDigest>, i: nat)
    requires i < |modules| && Keyed(modules[..i], StrippedKey)
    ensures Keyed(modules[..i + 1], StrippedKey)
            <==> forall j :: 0 <= j < i ==> Stripped(modules[j].name) != Stripped(modules[i].name)
  {
    hide Stripped, Codes;
    var all := modules[..i + 1];
    forall j | 0 <= j < i
      ensures StrippedKey(all[j]) == StrippedKey(all[i]) <==> Stripped(modules[j].name) == Stripped(modules[i].name)
    {
      if StrippedKey(all[j]) == StrippedKey(all[i]) {
        CodesInjective(Stripped(modules[j].name), Stripped(modules[i].name));
      }
    }
    assert forall j :: 0 <= j < i ==> modules[..i][j] == all[j];
  }

  lemma TotalStep(modules: seq<ModuleDigest>, i: nat)
    requires i < |modules|
    ensures Total(modules[..i + 1]) == Total(modules[..i]) + modules[i].byteCount
  {
    assert modules[..i + 1][..i] == modules[..i];
  }

  lemma NothingAdmitted(modules: seq<ModuleDigest>)
    ensures Keyed(modules[..0], StrippedKey) && Total(modules[..0]) == 0
  {
  }

  /** Names that are distinct are so in every front. */
  lemma KeyedFront(modules: seq<ModuleDigest>, i: nat)
    requires i <= |modules| && Keyed(modules, StrippedKey)
    ensures Keyed(modules[..i], StrippedKey)
  {
    hide Stripped, Codes;
    assert forall j :: 0 <= j < i ==> modules[..i][j] == modules[j];
  }

  method Admit(modules: seq<ModuleDigest>) returns (ok: bool)
    ensures ok <==> && (forall i :: 0 <= i < |modules| ==> Admissible(modules[i]))
                    && DistinctNames(modules) && Total(modules) <= BYTE_LIMIT
  {
    hide Admissible, Stripped, Codes, Total, Keyed;
    NothingAdmitted(modules);
    var names: set<string> := {};
    var bytes := 0;
    for i := 0 to |modules|
      invariant forall j :: 0 <= j < i ==> Admissible(modules[j]) && Stripped(modules[j].name) in names
      invariant forall n :: n in names ==> exists j :: 0 <= j < i && Stripped(modules[j].name) == n
      invariant Keyed(modules[..i], StrippedKey)
      invariant bytes == Total(modules[..i]) <= BYTE_LIMIT
    {
      var name := Stripped(modules[i].name);
      KeyedStep(modules, i);
      if !Admissible(modules[i]) || name in names {
        if DistinctNames(modules) {
          KeyedFront(modules, i + 1);
        }
        return false;
      }
      names := names + {name};
      bytes := bytes + modules[i].byteCount;
      TotalStep(modules, i);
      TotalGrows(modules, i + 1);
      if bytes > BYTE_LIMIT {
        return false;
      }
    }
    assert modules[..|modules|] == modules;
    return true;
  }

  function Ordered(modules: seq<ModuleDigest>): seq<ModuleDigest> {
    Sort(modules, NameKey)
  }

  const MISMATCH := "Worker module proof is incomplete or mismatched"

  ghost function Canonical(mainModule: string, modules: seq<ModuleDigest>): Result<Manifest> {
    if Acceptable(mainModule, modules) then Ok(Manifest(mainModule, Ordered(modules))) else Err(MISMATCH)
  }

  method CanonicalManifest(mainModule: string, modules: seq<ModuleDigest>) returns (r: Result<Manifest>)
    ensures r == Canonical(mainModule, modules)
  {
    hide Admissible, DistinctNames;
    if |modules| == 0 || |modules| > MODULE_LIMIT {
      return Err(MISMATCH);
    }
    var ok := Admit(modules);
    if !ok || !exists i :: 0 <= i < |modules| && modules[i].name == mainModule {
      return Err(MISMATCH);
    }
    return Ok(Manifest(mainModule, Ordered(modules)));
  }

  lemma DistinctStripped(modules: seq<ModuleDigest>)
    requires DistinctNames(modules)
    ensures Keyed(modules, NameKey)
  {
    forall i, j | 0 <= i < j < |modules| ensures NameKey(modules[i]) != NameKey(modules[j]) {
      if NameKey(modules[i]) == NameKey(modules[j]) {
        CodesInjective(modules[i].name, modules[j].name);
      }
    }
  }

  lemma {:induction false} TotalPermutes(a: seq<ModuleDigest>, b: seq<ModuleDigest>)
    requires multiset(a) == multiset(b)
    ensures Total(a) == Total(b)
    decreases |a|
  {
    if a == [] {
      Lists.SamePlaces(a, b);
    } else {
      hide Total;
      var k := Lists.TakeOut(a, b);
      var rest := b[..k] + b[k + 1..];
      TotalPermutes(a[1..], rest);
      TotalFirst(a);
      TotalWithout(b, k);
    }
  }

  lemma TotalFirst(a: seq<ModuleDigest>)
    requires a != []
    ensures Total(a) == Total(a[1..]) + a[0].byteCount
  {
    TotalWithout(a, 0);
    assert a[..0] + a[1..] == a[1..];
  }

  lemma {:induction false} TotalWithout(b: seq<ModuleDigest>, k: nat)
    requires k < |b|
    ensures Total(b) == Total(b[..k] + b[k + 1..]) + b[k].byteCount
    decreases |b|
  {
    var front := b[..|b| - 1];
    if k == |b| - 1 {
      assert b[..k] + b[k + 1..] == front;
    } else {
      TotalWithout(front, k);
      var rest := b[..k] + b[k + 1..];
      assert rest[..|rest| - 1] == front[..k] + front[k + 1..];
      assert rest[|rest| - 1] == b[|b| - 1];
    }
  }

  lemma AcceptablePermutes(mainModule: string, a: seq<ModuleDigest>, b: seq<ModuleDigest>)
    requires multiset(a) == multiset(b) && Acceptable(mainModule, a)
    ensures Acceptable(mainModule, b)
  {
    hide Admissible, Stripped;
    assert |a| == |multiset(a)| && |b| == |multiset(b)|;
    TotalPermutes(a, b);
    KeyedPermutes(a, b, StrippedKey);
    forall i | 0 <= i < |b| ensures Admissible(b[i]) {
      assert b[i] in multiset(a);
    }
    var i :| 0 <= i < |a| && a[i].name == mainModule;
    assert a[i] in multiset(b);
  }

  /** A manifest is the same whatever order its modules are listed in, and refused in every order if in one. */
  lemma OrderIrrelevant(mainModule: string, a: seq<ModuleDigest>, b: seq<ModuleDigest>)
    requires multiset(a) == multiset(b)
    ensures Canonical(mainModule, a) == Canonical(mainModule, b)
  {
    hide Admissible, Stripped;
    if Acceptable(mainModule, a) {
      AcceptablePermutes(mainModule, a, b);
      DistinctStripped(a);
      SortIgnoresOrder(a, b, NameKey);
    } else if Acceptable(mainModule, b) {
      AcceptablePermutes(mainModule, b, a);
    }
  }

  /** An accepted manifest holds exactly the modules given, by name. */
  lemma CanonicalHolds(mainModule: string, modules: seq<ModuleDigest>)
    requires Canonical(mainModule, modules).Ok?
    ensures var m := Canonical(mainModule, modules).value;
      multiset(m.modules) == multiset(modules) && Ascending(m.modules, NameKey) && Keyed(m.modules, NameKey)
  {
    hide Admissible, Stripped;
    SortKeeps(modules, NameKey);
    SortAscends(modules, NameKey);
    DistinctStripped(modules);
    KeyedPermutes(modules, Ordered(modules), NameKey);
  }

  // ----- comparing with what the provider reports -----

  datatype Local = Local(manifest: Manifest, staticAssets: bool, sourceMaps: bool)
  /** The provider's answer: whether its envelope is a complete, body-free success for the version
      that is active, and what it says of the modules. */
  datatype Answer = Answer(complete: bool, manifest: Manifest, manifestSha: string, moduleCount: int, byteCount: int)
  datatype ModuleProof = ModuleProof(artifactVerified: bool, manifestSha: string, moduleCount: nat, byteCount: nat)

  /** The provider runs exactly the modules of the upload, in whatever order it lists them, and
      its digest and counts are those of that manifest. */
  ghost predicate Matches(local: Local, answer: Answer, hash: Manifest -> string) {
    var l, a := local.manifest, answer.manifest;
    && answer.complete
    && Acceptable(l.mainModule, l.modules)
    && a.mainModule == l.mainModule && multiset(a.modules) == multiset(l.modules)
    && hash(Manifest(l.mainModule, Ordered(l.modules))) == answer.manifestSha
    && answer.moduleCount == |l.modules| && answer.byteCount == Total(l.modules)
  }

  lemma SameManifests(l: Manifest, a: Manifest)
    ensures Canonical(l.mainModule, l.modules).Ok? && Canonical(a.mainModule, a.modules).Ok? ==>
      (Canonical(l.mainModule, l.modules) == Canonical(a.mainModule, a.modules)
       <==> l.mainModule == a.mainModule && multiset(l.modules) == multiset(a.modules))
    ensures multiset(l.modules) == multiset(a.modules) ==>
      Canonical(l.mainModule, l.modules) == Canonical(l.mainModule, a.modules)
  {
    hide Acceptable;
    SortKeeps(l.modules, NameKey);
    SortKeeps(a.modules, NameKey);
    if multiset(l.modules) == multiset(a.modules) {
      OrderIrrelevant(l.mainModule, l.modules, a.modules);
    }
  }

  predicate Agrees(expected: Manifest, actual: Manifest, answer: Answer, hash: Manifest -> string) {
    && actual == expected && hash(actual) == answer.manifestSha
    && answer.moduleCount == |actual.modules| && answer.byteCount == Total(actual.modules)
  }

  lemma OrderedCounts(mainModule: string, modules: seq<ModuleDigest>)
    ensures Canonical(mainModule, modules).Ok? ==>
      var m := Canonical(mainModule, modules).value;
      |m.modules| == |modules| && Total(m.modules) == Total(modules)
  {
    hide Acceptable;
    SortKeeps(modules, NameKey);
    TotalPermutes(Ordered(modules), modules);
  }

  lemma MatchesExactly(local: Local, answer: Answer, hash: Manifest -> string)
    ensures
      var l := Canonical(local.manifest.mainModule, local.manifest.modules);
      var a := Canonical(answer.manifest.mainModule, answer.manifest.modules);
      && (Matches(local, answer, hash) <==>
            answer.complete && l.Ok? && a.Ok? && Agrees(l.value, a.value, answer, hash))
      && (Matches(local, answer, hash) ==>
            |a.value.modules| == |local.manifest.modules| && Total(a.value.modules) == Total(local.manifest.modules))
  {
    hide Acceptable, Total, Ordered;
    SameManifests(local.manifest, answer.manifest);
    OrderedCounts(local.manifest.mainModule, local.manifest.modules);
  }

  method QualifyWorkerModules(local: Local, answer: Answer, hash: Manifest -> string) returns (r: Result<ModuleProof>)
    ensures r.Ok? <==> Matches(local, answer, hash)
    ensures r.Ok? ==> r.value == ModuleProof(!local.staticAssets && !local.sourceMaps, answer.manifestSha,
                                             |local.manifest.modules|, Total(local.manifest.modules))
  {
    hide Canonical, Total, Matches;
    MatchesExactly(local, answer, hash);
    if !answer.complete {
      return Err(MISMATCH);
    }
    var expected :- CanonicalManifest(local.manifest.mainModule, local.manifest.modules);
    var actual :- CanonicalManifest(answer.manifest.mainModule, answer.manifest.modules);
    if !Agrees(expected, actual, answer, hash) {
      return Err(MISMATCH);
    }
    return Ok(ModuleProof(!local.staticAssets && !local.sourceMaps, answer.manifestSha,
                          |actual.modules|, Total(actual.modules)));
  }
}
