/** Projecting the modules that the provider returns, encoded, to their digests. */
module PluginModules {
  import opened Results
  import opened Base64
  import opened Ordering
  import M = ModuleManifest
  import Texts

  const MODULE_LIMIT := 128
  const DECODED_LIMIT: nat := 16 * 1024 * 1024
  const RESPONSE_LIMIT: nat := 32 * 1024 * 1024
  const NAME_LIMIT := 240
  const SOURCE_MAP := "application/source-map"
  const ENTRY_TYPES := {"application/javascript+module", "text/javascript", "application/javascript"}

  datatype Module = Module(name: string, contentType: string, content: string)

  predicate NameChar(c: char) {
    'A' <= c <= 'Z' || 'a' <= c <= 'z' || '0' <= c <= '9' || c in {'_', '@', '.', '-'}
  }

  predicate SafeModuleName(name: string) {
    && |name| <= NAME_LIMIT
    && forall s :: s in Texts.Split(M.Stripped(name), '/') ==>
         s != "" && s != "." && s != ".." && forall i :: 0 <= i < |s| ==> NameChar(s[i])
  }

  predicate TypeChar(c: char) {
    'a' <= c <= 'z' || '0' <= c <= '9' || c in {'.', '+', '-'}
  }

  predicate ContentType(t: string) {
    exists k :: 0 < k < |t| - 1 && t[k] == '/' && forall i :: 0 <= i < |t| && i != k ==> TypeChar(t[i])
  }

  // ----- sizes -----

  /** Three quarters of the length without the padding, in quarters of a byte so that no remainder is lost. */
  function QuarterSize(encoded: string): int {
    3 * |encoded| - 4 * Padding(encoded)
  }

  /** The size computed from the length of an encoding is the number of bytes it encodes. */
  lemma SizeFormula(bs: Bytes)
    ensures QuarterSize(Encode(bs)) == 4 * |bs|
  {
    hide Encode, DecodeLetters, Letters;
    EncodeReads(bs);
  }

  predicate Canonical(encoded: string) {
    |encoded| % 4 == 0 && Letters(Data(encoded)) && Atob(encoded).Some? && Encode(Atob(encoded).value) == encoded
  }

  function BytesOf(encoded: string): Bytes {
    if Atob(encoded).Some? then Atob(encoded).value else []
  }

  /** The checks on an encoding accept exactly the encodings. */
  lemma CanonicalExactly(encoded: string, bs: Bytes)
    ensures Canonical(encoded) && BytesOf(encoded) == bs <==> encoded == Encode(bs)
    ensures Canonical(encoded) ==> QuarterSize(encoded) == 4 * |BytesOf(encoded)|
  {
    hide Encode, DecodeLetters, Letters, Atob;
    EncodeReads(bs);
    AtobReads(bs);
    if Canonical(encoded) {
      SizeFormula(BytesOf(encoded));
    }
  }

  function Total(modules: seq<Module>): nat {
    if modules == [] then 0 else Total(modules[..|modules| - 1]) + |BytesOf(modules[|modules| - 1].content)|
  }

  lemma {:induction false} TotalGrows(modules: seq<Module>, i: nat)
    requires i <= |modules|
    ensures Total(modules[..i]) <= Total(modules)
    decreases |modules|
  {
    hide BytesOf;
    if i < |modules| {
      var front := modules[..|modules| - 1];
      TotalGrows(front, i);
      assert front[..i] == modules[..i];
    } else {
      assert modules[..i] == modules;
    }
  }

  // ----- the projection -----

  datatype Projection = Projection(entrypoint: string, modules: seq<M.ModuleDigest>, sourceMaps: bool)

  function StrippedKey(m: Module): Text {
    Codes(M.Stripped(m.name))
  }

  predicate Admissible(m: Module) {
    SafeModuleName(m.name) && ContentType(m.contentType) && Canonical(m.content)
  }

  /** The digests of all modules but the source maps, in the order given. */
  function Outputs(modules: seq<Module>, sha: Bytes -> string): seq<M.ModuleDigest> {
    if modules == [] then []
    else
      var m := modules[|modules| - 1];
      Outputs(modules[..|modules| - 1], sha) + OutputOf(m, sha)
  }

  predicate HasEntry(outputs: seq<M.ModuleDigest>, mainModule: string) {
    exists i :: 0 <= i < |outputs| && outputs[i].name == mainModule && outputs[i].contentType in ENTRY_TYPES
  }

  /** What a response must be to be projected. */
  ghost predicate Acceptable(modules: seq<Module>, mainModule: string, responseBytes: nat, sha: Bytes -> string) {
    && SafeModuleName(mainModule) && 1 <= |modules| <= MODULE_LIMIT && responseBytes <= RESPONSE_LIMIT
    && AllAdmitted(modules)
    && HasEntry(Outputs(modules, sha), mainModule)
  }

  /** Every module is canonical, no two have one name, and together they decode to no more than the limit. */
  ghost predicate AllAdmitted(modules: seq<Module>) {
    && (forall i :: 0 <= i < |modules| ==> Admissible(modules[i]))
    && Keyed(modules, StrippedKey) && Total(modules) <= DECODED_LIMIT
  }

  function NamesIn(modules: seq<Module>): set<string> {
    set m | m in modules :: M.Stripped(m.name)
  }

  function MapsIn(modules: seq<Module>): bool {
    exists m :: m in modules && m.contentType == SOURCE_MAP
  }

  lemma KeyTaken(modules: seq<Module>, m: Module)
    ensures M.Stripped(m.name) in NamesIn(modules) <==>
            exists j :: 0 <= j < |modules| && StrippedKey(modules[j]) == StrippedKey(m)
  {
    hide M.Stripped, Codes;
    if j :| 0 <= j < |modules| && StrippedKey(modules[j]) == StrippedKey(m) {
      CodesInjective(M.Stripped(modules[j].name), M.Stripped(m.name));
      assert modules[j] in modules;
    }
  }

  /** One more module is admitted exactly when it is admissible, its name is new and its bytes still fit. */
  lemma AdmittedStep(front: seq<Module>, m: Module)
    requires AllAdmitted(front)
    ensures AllAdmitted(front + [m]) <==>
            && Admissible(m) && M.Stripped(m.name) !in NamesIn(front)
            && Total(front) + |BytesOf(m.content)| <= DECODED_LIMIT
  {
    hide Admissible, BytesOf, StrippedKey, NamesIn;
    var all := front + [m];
    assert all[..|all| - 1] == front;
    KeyTaken(front, m);
    assert all[|front|] == m && forall j :: 0 <= j < |front| ==> all[j] == front[j];
  }

  lemma AdmittedPrefix(modules: seq<Module>, i: nat)
    requires i <= |modules| && AllAdmitted(modules)
    ensures AllAdmitted(modules[..i])
  {
    hide Admissible, BytesOf, StrippedKey;
    TotalGrows(modules, i);
    var front := modules[..i];
    assert forall j :: 0 <= j < i ==> front[j] == modules[j];
  }

  function OutputOf(m: Module, sha: Bytes -> string): seq<M.ModuleDigest> {
    if m.contentType == SOURCE_MAP then []
    else [M.ModuleDigest(m.name, m.contentType, |BytesOf(m.content)|, sha(BytesOf(m.content)))]
  }

  lemma PrefixStep(front: seq<Module>, m: Module, sha: Bytes -> string)
    ensures NamesIn(front + [m]) == NamesIn(front) + {M.Stripped(m.name)}
    ensures Total(front + [m]) == Total(front) + |BytesOf(m.content)|
    ensures Outputs(front + [m], sha) == Outputs(front, sha) + OutputOf(m, sha)
    ensures MapsIn(front + [m]) <==> MapsIn(front) || m.contentType == SOURCE_MAP
  {
    hide BytesOf, M.Stripped;
    var all := front + [m];
    assert all[..|all| - 1] == front;
  }

  method ReadModules(modules: seq<Module>, sha: Bytes -> string)
    returns (r: Result<(seq<M.ModuleDigest>, bool)>)
    ensures r.Ok? <==> AllAdmitted(modules)
    ensures r.Ok? ==> r.value == (Outputs(modules, sha), MapsIn(modules))
  {
    hide SafeModuleName, ContentType, Canonical, BytesOf, QuarterSize, M.Stripped, AllAdmitted, NamesIn, Total, Outputs, MapsIn;
    var names: set<string> := {};
    var output: seq<M.ModuleDigest> := [];
    var total, sourceMaps := 0, false;
    NothingYet(sha);
    for i := 0 to |modules|
      invariant AllAdmitted(modules[..i]) && names == NamesIn(modules[..i]) && total == Total(modules[..i])
      invariant output == Outputs(modules[..i], sha) && sourceMaps == MapsIn(modules[..i])
    {
      var m := modules[i];
      var name := M.Stripped(m.name);
      assert modules[..i + 1] == modules[..i] + [m];
      ModuleChecked(m);
      AdmittedStep(modules[..i], m);
      if AllAdmitted(modules) {
        AdmittedPrefix(modules, i + 1);
      }
      if !SafeModuleName(m.name) {
        return Err("module_name");
      }
      if name in names {
        return Err("duplicate_module");
      }
      if !ContentType(m.contentType) {
        return Err("content_type");
      }
      if QuarterSize(m.content) > 4 * (DECODED_LIMIT - total) {
        return Err("decoded_size");
      }
      if !Canonical(m.content) {
        return Err("base64_noncanonical");
      }
      PrefixStep(modules[..i], m, sha);
      names := names + {name};
      total := total + |BytesOf(m.content)|;
      if m.contentType == SOURCE_MAP {
        sourceMaps := true;
      }
      output := output + OutputOf(m, sha);
    }
    assert modules[..|modules|] == modules;
    return Ok((output, sourceMaps));
  }

  lemma NothingYet(sha: Bytes -> string)
    ensures AllAdmitted([]) && NamesIn([]) == {} && Total([]) == 0 && Outputs([], sha) == [] && !MapsIn([])
  {
  }

  lemma ModuleChecked(m: Module)
    ensures Canonical(m.content) ==> QuarterSize(m.content) == 4 * |BytesOf(m.content)|
  {
    CanonicalExactly(m.content, BytesOf(m.content));
  }

  method ProjectModules(modules: seq<Module>, mainModule: string, responseBytes: nat, sha: Bytes -> string)
    returns (r: Result<Projection>)
    ensures r.Ok? <==> Acceptable(modules, mainModule, responseBytes, sha)
    ensures r.Ok? ==> r.value.entrypoint == mainModule && r.value.modules == Sort(Outputs(modules, sha), M.NameKey)
    ensures r.Ok? ==> r.value.sourceMaps == MapsIn(modules)
  {
    hide SafeModuleName, AllAdmitted, Outputs;
    if !SafeModuleName(mainModule) || modules == [] || |modules| > MODULE_LIMIT || responseBytes > RESPONSE_LIMIT {
      return Err("module_count");
    }
    var read :- ReadModules(modules, sha);
    if !HasEntry(read.0, mainModule) {
      return Err("entrypoint_missing");
    }
    return Ok(Projection(mainModule, Sort(read.0, M.NameKey), read.1));
  }

  // ----- names and types -----

  predicate NameCode(c: int) {
    0x2D <= c <= 0x2E || 0x30 <= c <= 0x39 || 0x40 <= c <= 0x5A || c == 0x5F || 0x61 <= c <= 0x7A
  }

  predicate SafeSegment(s: string) {
    s != "" && s != "." && s != ".." && forall i :: 0 <= i < |s| ==> NameCode(s[i] as int)
  }

  ghost predicate PathOf(name: string, parts: seq<string>) {
    && parts != [] && (forall k :: 0 <= k < |parts| ==> SafeSegment(parts[k]))
    && (name == Texts.Joined(parts, '/') || name == "./" + Texts.Joined(parts, '/'))
  }

  lemma SegmentIs(s: string)
    ensures SafeSegment(s) <==> s != "" && s != "." && s != ".." && forall i :: 0 <= i < |s| ==> NameChar(s[i])
    ensures SafeSegment(s) ==> M.ProperSegment(s) && '/' !in s
  {
    forall c: char ensures NameCode(c as int) <==> NameChar(c) {
      CodeIs(c);
    }
  }

  lemma CodeIs(c: char)
    ensures NameCode(c as int) <==> NameChar(c)
  {
  }

  /** A name is safe exactly when it is segments of letters, digits and four marks, none of them of dots alone, joined by
      slashes, perhaps behind a dot and a slash. */
  lemma NamedExactly(name: string)
    ensures SafeModuleName(name) <==> |name| <= 240 && exists parts :: PathOf(name, parts)
  {
    hide Texts.Joined, Texts.Split, NameCode, NameChar, SafeSegment;
    var path := M.Stripped(name);
    var split := Texts.Split(path, '/');
    Texts.SplitJoins(path, '/');
    forall s ensures SafeSegment(s) <==> s != "" && s != "." && s != ".." && forall i :: 0 <= i < |s| ==> NameChar(s[i]) {
      SegmentIs(s);
    }
    if SafeModuleName(name) {
      assert |name| >= 2 && name[..2] == "./" ==> name == "./" + path;
      assert forall k :: 0 <= k < |split| ==> split[k] in split;
      assert PathOf(name, split);
    }
    if parts :| PathOf(name, parts) {
      PathSplits(name, parts);
    }
  }

  lemma PathSplits(name: string, parts: seq<string>)
    requires PathOf(name, parts)
    ensures Texts.Split(M.Stripped(name), '/') == parts
  {
    hide Texts.Joined, Texts.Split, SafeSegment, M.ProperSegment;
    forall k | 0 <= k < |parts| ensures M.ProperSegment(parts[k]) && '/' !in parts[k] {
      SegmentIs(parts[k]);
    }
    M.ProperStart(parts);
    Texts.JoinedSplits(parts, '/');
    if name != Texts.Joined(parts, '/') {
      assert name[2..] == Texts.Joined(parts, '/') && name[..2] == "./";
    }
  }

  /** A type is two non-empty texts of lower-case letters, digits and three marks around a slash. */
  predicate TypeText(s: string) {
    s != "" && forall i :: 0 <= i < |s| ==>
                 var c := s[i] as int; c == 0x2B || 0x2D <= c <= 0x2E || 0x30 <= c <= 0x39 || 0x61 <= c <= 0x7A
  }

  lemma TypeExactly(t: string)
    ensures ContentType(t) <==> exists a, b :: TypeText(a) && TypeText(b) && t == a + "/" + b
  {
    if ContentType(t) {
      var k :| 0 < k < |t| - 1 && t[k] == '/' && forall i :: 0 <= i < |t| && i != k ==> TypeChar(t[i]);
      assert t == t[..k] + "/" + t[k + 1..];
      assert TypeText(t[..k]) && TypeText(t[k + 1..]);
    }
    if a, b :| TypeText(a) && TypeText(b) && t == a + "/" + b {
      TypeMade(a, b);
    }
  }

  lemma TypeMade(a: string, b: string)
    requires TypeText(a) && TypeText(b)
    ensures ContentType(a + "/" + b)
  {
    var t := a + "/" + b;
    assert t[|a|] == '/';
    forall i | 0 <= i < |t| && i != |a| ensures TypeChar(t[i]) {
      assert i < |a| ==> t[i] == a[i];
      assert i > |a| ==> t[i] == b[i - |a| - 1];
    }
  }

  /** What a response must be: one to 128 modules within 32 MiB of response and 16 MiB decoded, with distinct names, and
      a script of the entry point's name among them. */
  lemma AcceptableExactly(modules: seq<Module>, mainModule: string, responseBytes: nat, sha: Bytes -> string)
    ensures Acceptable(modules, mainModule, responseBytes, sha) <==>
      && SafeModuleName(mainModule) && 1 <= |modules| <= 128 && responseBytes <= 33554432 && Total(modules) <= 16777216
      && (forall i :: 0 <= i < |modules| ==> Admissible(modules[i])) && Keyed(modules, StrippedKey)
      && exists m :: m in modules && Script(m, mainModule)
  {
    hide SafeModuleName, Total, Admissible, StrippedKey, Outputs, Keyed;
    EntryIs(modules, mainModule, sha);
  }

  predicate Script(m: Module, name: string) {
    m.name == name && (m.contentType == "application/javascript+module" || m.contentType == "text/javascript"
                       || m.contentType == "application/javascript")
  }

  lemma {:induction false} EntryIs(modules: seq<Module>, mainModule: string, sha: Bytes -> string)
    ensures HasEntry(Outputs(modules, sha), mainModule) <==> exists m :: m in modules && Script(m, mainModule)
  {
    if modules != [] {
      hide HasEntry, Script, OutputOf;
      var front, m := modules[..|modules| - 1], modules[|modules| - 1];
      EntryIs(front, mainModule, sha);
      EntryJoins(Outputs(front, sha), OutputOf(m, sha), mainModule);
      EntryOne(m, mainModule, sha);
      assert forall x :: x in modules <==> x in front || x == m by {
        assert modules == front + [m];
      }
    }
  }

  lemma EntryOne(m: Module, mainModule: string, sha: Bytes -> string)
    ensures HasEntry(OutputOf(m, sha), mainModule) <==> Script(m, mainModule)
  {
    if Script(m, mainModule) {
      assert OutputOf(m, sha)[0].name == mainModule;
    }
  }

  lemma EntryJoins(a: seq<M.ModuleDigest>, b: seq<M.ModuleDigest>, mainModule: string)
    ensures HasEntry(a + b, mainModule) <==> HasEntry(a, mainModule) || HasEntry(b, mainModule)
  {
    var all := a + b;
    if i :| 0 <= i < |a| && a[i].name == mainModule && a[i].contentType in ENTRY_TYPES {
      assert all[i] == a[i];
    }
    if i :| 0 <= i < |b| && b[i].name == mainModule && b[i].contentType in ENTRY_TYPES {
      assert all[|a| + i] == b[i];
    }
  }
}
