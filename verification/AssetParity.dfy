/**
 Two checkers of one injected asset tree. `AssetsAccepted` follows `verify_asset_tree` in
 scripts/asset_contract.py; `TreeAccepted` and `ParityAccepted` follow `_verify_tree` and
 `verify_parity` in scripts/verify_web_artifact_parity.py. Both get the tree as a map from path to
 bytes; SHA-256 is a function parameter, injective where that matters, and so are the JSON readers.
 */
module AssetParity {
  import opened Wrappers
  import opened AssetTree
  import opened FileLists
  import opened Text

  type Digest = Bytes

  datatype Record = Record(bytes: int, sha: Digest)

  datatype Evidence = Evidence(path: Bytes, record: Record)

  datatype Build = Build(outputSha: Digest, provenance: Evidence, content: Evidence, sbom: Evidence, licenses: Evidence)

  const ASSET_FORMAT := "gigaloom-web-assets-v1"
  const PROVENANCE_FORMAT := "gigaloom-web-assets-provenance-v1"
  const CONTENT_FORMAT := "gigaloom-web-content-manifest-v1"
  const SBOM_FORMAT := "gigaloom-web-sbom-v1"
  const LICENSE_FORMAT := "gigaloom-web-licenses-v1"

  datatype RuntimeManifest = RuntimeManifest(
    version: string,
    entry: Bytes,
    initial: seq<Bytes>,
    assets: map<Bytes, Record>,
    build: Option<Build>)

  datatype ContentManifest = ContentManifest(
    version: string,
    revision: string,
    outputSha: Digest,
    releaseSha: Digest,
    files: map<Bytes, Record>,
    contentSha: Digest)

  datatype Provenance = Provenance(
    version: string,
    wellFormed: bool,
    revision: string,
    outputSha: Digest,
    sbomSha: Digest,
    licensesSha: Digest,
    releaseSha: Digest,
    inputFiles: int,
    inputSha: Digest,
    lockSha: Digest,
    brandSha: Digest)

  /** One metadata property; an item without a name or a value has none. */
  datatype Property = Property(name: Option<string>, value: Option<string>)

  /** Of the component and package lists only the lengths matter; `None` is no list. */
  datatype Sbom = Sbom(bomFormat: string, specVersion: string, properties: Option<seq<Property>>,
                       components: Option<nat>)

  datatype Licenses = Licenses(version: string, packages: Option<nat>, count: Option<int>)

  /** The parts of the environment that the checkers are not about. */
  datatype Host = Host(
    sha: Bytes -> Digest,
    runtime: Bytes -> Option<RuntimeManifest>,
    content: Bytes -> Option<ContentManifest>,
    provenance: Bytes -> Option<Provenance>,
    sbom: Bytes -> Option<Sbom>,
    licenses: Bytes -> Option<Licenses>)

  /** The authored frontend beside the injected assets. */
  datatype Frontend = Frontend(inputs: seq<Entry>, lockfile: Bytes, brand: Bytes, revision: Option<string>,
                               release: Bytes)

  type Tree = map<Bytes, Bytes>

  // The names of the files beside the runtime assets, in ASCII.

  // manifest.json
  const RUNTIME: Bytes :=
    [109, 97, 110, 105, 102, 101, 115, 116, 46, 106, 115, 111, 110]
  // _build
  const BUILD: Bytes :=
    [95, 98, 117, 105, 108, 100]
  // content-manifest.json
  const CONTENT_LEAF: Bytes :=
    [99, 111, 110, 116, 101, 110, 116, 45, 109, 97, 110, 105, 102, 101, 115, 116, 46, 106, 115, 111,
     110]
  // provenance.json
  const PROVENANCE_LEAF: Bytes :=
    [112, 114, 111, 118, 101, 110, 97, 110, 99, 101, 46, 106, 115, 111, 110]
  // sbom.cdx.json
  const SBOM_LEAF: Bytes :=
    [115, 98, 111, 109, 46, 99, 100, 120, 46, 106, 115, 111, 110]
  // licenses.json
  const LICENSES_LEAF: Bytes :=
    [108, 105, 99, 101, 110, 115, 101, 115, 46, 106, 115, 111, 110]

  const CONTENT := BUILD + [47] + CONTENT_LEAF
  const PROVENANCE := BUILD + [47] + PROVENANCE_LEAF
  const SBOM := BUILD + [47] + SBOM_LEAF
  const LICENSES := BUILD + [47] + LICENSES_LEAF

  const EVIDENCE_NAMES: set<Bytes> := {PROVENANCE, SBOM, LICENSES}
  const CONTROL_NAMES: set<Bytes> := {RUNTIME, CONTENT} + EVIDENCE_NAMES

  lemma ControlNamesDiffer()
    ensures RUNTIME !in {CONTENT, PROVENANCE, SBOM, LICENSES} && CONTENT !in {PROVENANCE, SBOM, LICENSES}
    ensures PROVENANCE !in {SBOM, LICENSES} && SBOM != LICENSES
  {
    assert |RUNTIME| == 13 && |CONTENT| == 28 && |PROVENANCE| == 22 && |SBOM| == |LICENSES| == 20;
    assert SBOM[7] != LICENSES[7];
  }

  // ---------- Common parts ----------

  /** `_named_digest`: the bytes that are hashed, name and content each ended by a NUL. */
  function NamedStream(files: seq<Entry>): Bytes {
    if files == [] then [] else files[0].path + [0] + files[0].content + [0] + NamedStream(files[1..])
  }

  predicate Matches(host: Host, record: Record, content: Bytes) {
    record.bytes == |content| && record.sha == host.sha(content)
  }

  /** A normalised relative path that goes nowhere up: parts between slashes, none empty or of dots alone. */
  predicate SafeName(name: Bytes) {
    || name == [46]
    || (92 !in name && forall part | part in SplitOn(name, 47) :: part != [] && part != [46] && part != [46, 46])
  }

  /** A stretch between two slashes, or between one and an end. */
  ghost predicate Stretch(name: Bytes, i: nat, j: nat) {
    && i <= j <= |name| && (i == 0 || name[i - 1] == 47) && (j == |name| || name[j] == 47)
    && forall k | i <= k < j :: name[k] != 47
  }

  lemma {:induction false} NoneBeforeIndex(s: Bytes, c: byte)
    ensures forall k | 0 <= k < IndexOf(s, c) :: s[k] != c
  {
    if s != [] && s[0] != c {
      NoneBeforeIndex(s[1..], c);
      assert forall k | 0 < k < |s| :: s[k] == s[1..][k - 1];
    }
  }

  lemma StretchMoves(name: Bytes, e: nat, i: nat, j: nat)
    requires e < |name| && name[e] == 47 && i <= j <= |name| - e - 1
    ensures Stretch(name[e + 1..], i, j) <==> Stretch(name, i + e + 1, j + e + 1)
    ensures name[e + 1..][i..j] == name[i + e + 1..j + e + 1]
  {
    var rest := name[e + 1..];
    assert forall k | 0 <= k < |rest| :: rest[k] == name[k + e + 1];
    assert i > 0 ==> rest[i - 1] == name[i + e];
    assert j < |rest| ==> rest[j] == name[j + e + 1];
    assert (forall k | i <= k < j :: rest[k] != 47) <==> forall k | i + e + 1 <= k < j + e + 1 :: name[k] != 47 by {
      if forall k | i <= k < j :: rest[k] != 47 {
        forall k | i + e + 1 <= k < j + e + 1 ensures name[k] != 47 {
          assert rest[k - e - 1] != 47;
        }
      }
    }
  }

  lemma {:induction false} PartIsStretch(name: Bytes, part: Bytes) returns (i: nat, j: nat)
    requires part in SplitOn(name, 47)
    ensures Stretch(name, i, j) && name[i..j] == part
    decreases |name|
  {
    hide IndexOf;
    var e := IndexOf(name, 47);
    NoneBeforeIndex(name, 47);
    if part == name[..e] {
      i, j := 0, e;
      assert name[0..e] == name[..e];
    } else {
      i, j := PartIsStretch(name[e + 1..], part);
      StretchMoves(name, e, i, j);
      i, j := i + e + 1, j + e + 1;
    }
  }

  lemma {:induction false} StretchIsPart(name: Bytes, i: nat, j: nat)
    requires Stretch(name, i, j)
    ensures name[i..j] in SplitOn(name, 47)
    decreases |name|
  {
    hide IndexOf;
    var e := IndexOf(name, 47);
    NoneBeforeIndex(name, 47);
    if i == 0 {
      assert j == e && name[i..j] == name[..e];
      assert SplitOn(name, 47)[0] == name[..e];
    } else {
      assert e <= i - 1;
      StretchMoves(name, e, i - e - 1, j - e - 1);
      StretchIsPart(name[e + 1..], i - e - 1, j - e - 1);
    }
  }

  /** A name is safe if it is the directory itself, or has no backslash and no stretch between slashes that is
      empty, one dot, or two. */
  lemma SafeExactly(name: Bytes)
    ensures SafeName(name)
            <==> || (|name| == 1 && name[0] == 46)
                 || (&& (forall k | 0 <= k < |name| :: name[k] != 92)
                     && (forall i: nat, j: nat | Stretch(name, i, j) ::
                           j > i && !(j == i + 1 && name[i] == 46) && !(j == i + 2 && name[i] == name[i + 1] == 46)))
  {
    hide SplitOn;
    var parts := SplitOn(name, 47);
    forall i: nat, j: nat | Stretch(name, i, j)
      ensures name[i..j] in parts && (name[i..j] == [] <==> i == j)
      ensures name[i..j] == [46] <==> j == i + 1 && name[i] == 46
      ensures name[i..j] == [46, 46] <==> j == i + 2 && name[i] == name[i + 1] == 46
    {
      StretchIsPart(name, i, j);
    }
    forall part | part in parts ensures exists i: nat, j: nat :: Stretch(name, i, j) && name[i..j] == part {
      var i, j := PartIsStretch(name, part);
    }
  }

  predicate HexRevision(revision: string) {
    |revision| in {40, 64} && forall i | 0 <= i < |revision| :: revision[i] in "0123456789abcdef"
  }

  /** The files of some names, in some order. */
  ghost predicate Lists(listing: seq<Entry>, tree: Tree, names: set<Bytes>) {
    && names <= tree.Keys
    && DistinctPaths(listing)
    && forall e :: e in listing <==> e.path in names && e.path in tree && e.content == tree[e.path]
  }

  ghost function Listed(tree: Tree, names: set<Bytes>): (listing: seq<Entry>)
    requires names <= tree.Keys
    ensures Lists(listing, tree, names)
  {
    if names == {} then []
    else
      var name :| name in names;
      var rest := Listed(tree, names - {name});
      var listing := [Entry(name, tree[name])] + rest;
      assert forall e :: e in listing <==> e == Entry(name, tree[name]) || e in rest;
      listing
  }

  function NamedDigest(host: Host, listing: seq<Entry>): Digest {
    host.sha(NamedStream(SortedByPath(listing)))
  }

  // ---------- The asset contract ----------

  predicate EvidenceMatches(host: Host, tree: Tree, evidence: Evidence, name: Bytes) {
    evidence.path == name && name in tree && Matches(host, evidence.record, tree[name])
  }

  predicate RuntimeAccepted(host: Host, tree: Tree, m: RuntimeManifest) {
    && m.version == ASSET_FORMAT && m.assets != map[] && m.initial != []
    && (forall name | name in m.assets :: SafeName(name))
    && (forall name | name in m.assets :: name in tree && Matches(host, m.assets[name], tree[name]))
    && m.entry in m.assets
    && (forall i, j | 0 <= i < j < |m.initial| :: m.initial[i] != m.initial[j])
    && (forall name | name in m.initial :: name in m.assets)
    && tree.Keys == CONTROL_NAMES + m.assets.Keys
  }

  function EvidenceEntries(tree: Tree): seq<Entry>
    requires EVIDENCE_NAMES <= tree.Keys
  {
    [Entry(LICENSES, tree[LICENSES]), Entry(PROVENANCE, tree[PROVENANCE]), Entry(SBOM, tree[SBOM])]
  }

  /** The files described by the content manifest, as the checker lists them: the assets, then the evidence. */
  ghost function Described(tree: Tree, m: RuntimeManifest): seq<Entry>
    requires tree.Keys == CONTROL_NAMES + m.assets.Keys
  {
    Listed(tree, m.assets.Keys) + EvidenceEntries(tree)
  }

  predicate ProvenanceAccepted(host: Host, tree: Tree, p: Provenance, output: Digest)
    requires SBOM in tree && LICENSES in tree
  {
    && p.version == PROVENANCE_FORMAT && p.wellFormed && HexRevision(p.revision)
    && p.outputSha == output && p.sbomSha == host.sha(tree[SBOM]) && p.licensesSha == host.sha(tree[LICENSES])
  }

  ghost predicate ContentAccepted(host: Host, tree: Tree, m: RuntimeManifest, p: Provenance, c: ContentManifest,
                                  output: Digest)
    requires tree.Keys == CONTROL_NAMES + m.assets.Keys
  {
    && c.version == CONTENT_FORMAT && c.revision == p.revision && c.outputSha == output && c.releaseSha == p.releaseSha
    && c.files.Keys == m.assets.Keys + EVIDENCE_NAMES
    && (forall name | name in c.files :: Matches(host, c.files[name], tree[name]))
    && c.contentSha == NamedDigest(host, Described(tree, m))
  }

  predicate FrontendAccepted(host: Host, p: Provenance, f: Frontend) {
    && p.inputFiles == |f.inputs| && p.inputSha == NamedDigest(host, f.inputs)
    && p.lockSha == host.sha(f.lockfile) && p.brandSha == host.sha(f.brand)
    && (f.revision == None || f.revision == Some(p.revision))
    && p.releaseSha == host.sha(f.release)
  }

  function FormatValues(properties: seq<Property>): set<Option<string>> {
    set p | p in properties && p.name == Some("gigaloom:format-version") :: p.value
  }

  predicate SupplyChainAccepted(host: Host, tree: Tree)
    requires SBOM in tree && LICENSES in tree
  {
    && host.sbom(tree[SBOM]).Some? && host.licenses(tree[LICENSES]).Some?
    && var s := host.sbom(tree[SBOM]).value;
    && var l := host.licenses(tree[LICENSES]).value;
    && s.bomFormat == "CycloneDX" && s.specVersion == "1.6"
    && s.properties.Some? && FormatValues(s.properties.value) == {Some(SBOM_FORMAT)}
    && l.version == LICENSE_FORMAT
    && s.components.Some? && l.packages.Some? && l.count == Some(l.packages.value) && s.components == l.packages
  }

  ghost predicate AssetsAccepted(host: Host, tree: Tree, frontend: Option<Frontend>) {
    && RUNTIME in tree && host.runtime(tree[RUNTIME]).Some?
    && var m := host.runtime(tree[RUNTIME]).value;
    && RuntimeAccepted(host, tree, m)
    && m.build.Some?
    && var build := m.build.value;
    && build.outputSha == NamedDigest(host, Listed(tree, m.assets.Keys))
    && EvidenceMatches(host, tree, build.provenance, PROVENANCE) && EvidenceMatches(host, tree, build.content, CONTENT)
    && EvidenceMatches(host, tree, build.sbom, SBOM) && EvidenceMatches(host, tree, build.licenses, LICENSES)
    && host.provenance(tree[PROVENANCE]).Some? && host.content(tree[CONTENT]).Some?
    && var p := host.provenance(tree[PROVENANCE]).value;
    && var c := host.content(tree[CONTENT]).value;
    && ProvenanceAccepted(host, tree, p, build.outputSha)
    && ContentAccepted(host, tree, m, p, c, build.outputSha)
    && SupplyChainAccepted(host, tree)
    && (frontend.Some? ==> FrontendAccepted(host, p, frontend.value))
  }

  // ---------- The contract once more, as what the documents must be ----------

  ghost function RecordOf(host: Host, content: Bytes): Record {
    Record(|content|, host.sha(content))
  }

  ghost function RecordsOf(host: Host, tree: Tree, names: set<Bytes>): (records: map<Bytes, Record>)
    requires names <= tree.Keys
    ensures records.Keys == names
  {
    map name | name in names :: RecordOf(host, tree[name])
  }

  ghost function EvidenceOf(host: Host, tree: Tree, name: Bytes): Evidence
    requires name in tree
  {
    Evidence(name, RecordOf(host, tree[name]))
  }

  /** The runtime manifest that a tree must have: open are the entry, the initial graph, and whether a control
      file is an asset as well. */
  ghost predicate ManifestIs(host: Host, tree: Tree, m: RuntimeManifest, output: Digest)
    requires CONTROL_NAMES <= tree.Keys
  {
    var names := m.assets.Keys;
    && names <= tree.Keys && tree.Keys - CONTROL_NAMES <= names
    && m == RuntimeManifest("gigaloom-web-assets-v1", m.entry, m.initial, RecordsOf(host, tree, names),
                            Some(Build(output, EvidenceOf(host, tree, PROVENANCE), EvidenceOf(host, tree, CONTENT),
                                       EvidenceOf(host, tree, SBOM), EvidenceOf(host, tree, LICENSES))))
    && m.entry in names && |m.initial| > 0
    && (forall i | 0 <= i < |m.initial| :: m.initial[i] in names)
    && (forall i, j | 0 <= i < |m.initial| && 0 <= j < |m.initial| && i != j :: m.initial[i] != m.initial[j])
    && (forall name | name in names :: SafeName(name))
  }

  ghost predicate LowerHex(c: char) {
    '0' <= c <= '9' || 'a' <= c <= 'f'
  }

  ghost predicate ProvenanceIs(host: Host, tree: Tree, p: Provenance, output: Digest)
    requires CONTROL_NAMES <= tree.Keys
  {
    && p == p.(version := "gigaloom-web-assets-provenance-v1", wellFormed := true, outputSha := output,
               sbomSha := host.sha(tree[SBOM]), licensesSha := host.sha(tree[LICENSES]))
    && (|p.revision| == 40 || |p.revision| == 64)
    && forall i | 0 <= i < |p.revision| :: LowerHex(p.revision[i])
  }

  ghost predicate ContentManifestIs(host: Host, tree: Tree, m: RuntimeManifest, c: ContentManifest, p: Provenance,
                                    output: Digest)
    requires tree.Keys == CONTROL_NAMES + m.assets.Keys
  {
    c == ContentManifest("gigaloom-web-content-manifest-v1", p.revision, output, p.releaseSha,
                         RecordsOf(host, tree, m.assets.Keys + {PROVENANCE, SBOM, LICENSES}),
                         NamedDigest(host, Described(tree, m)))
  }

  /** As many components as packages as counted, and exactly the one format value. */
  ghost predicate SupplyChainIs(s: Sbom, l: Licenses) {
    && s == Sbom("CycloneDX", "1.6", s.properties, s.components)
    && l.version == "gigaloom-web-licenses-v1"
    && s.properties.Some? && s.components.Some?
    && l.packages == s.components && l.count == Some(s.components.value as int)
    && (exists item :: item in s.properties.value && item == Property(Some("gigaloom:format-version"),
                                                                      Some("gigaloom-web-sbom-v1")))
    && (forall item :: item in s.properties.value && item.name == Some("gigaloom:format-version") ==>
          item.value == Some("gigaloom-web-sbom-v1"))
  }

  ghost predicate FrontendIs(host: Host, p: Provenance, f: Frontend) {
    && p == p.(inputFiles := |f.inputs|, inputSha := NamedDigest(host, f.inputs), lockSha := host.sha(f.lockfile),
               brandSha := host.sha(f.brand), releaseSha := host.sha(f.release))
    && (f.revision.Some? ==> f.revision.value == p.revision)
  }

  lemma RevisionExactly(revision: string)
    ensures HexRevision(revision)
            <==> (|revision| == 40 || |revision| == 64) && forall i | 0 <= i < |revision| :: LowerHex(revision[i])
  {
    forall c: char ensures c in "0123456789abcdef" <==> LowerHex(c) {
      HexDigits(c);
    }
  }

  lemma HexDigits(c: char)
    ensures c in "0123456789abcdef" <==> LowerHex(c)
  {
    var digits := "0123456789abcdef";
    if '0' <= c <= '9' {
      assert digits[c as int - '0' as int] == c;
    } else if 'a' <= c <= 'f' {
      assert digits[c as int - 'a' as int + 10] == c;
    }
  }

  lemma EvidenceExactly(host: Host, tree: Tree, evidence: Evidence, name: Bytes)
    requires name in tree
    ensures EvidenceMatches(host, tree, evidence, name) <==> evidence == EvidenceOf(host, tree, name)
  {
  }

  lemma RecordsExactly(host: Host, tree: Tree, records: map<Bytes, Record>)
    requires records.Keys <= tree.Keys
    ensures (forall name | name in records :: Matches(host, records[name], tree[name]))
            <==> records == RecordsOf(host, tree, records.Keys)
  {
  }

  lemma ManifestExactly(host: Host, tree: Tree, m: RuntimeManifest, output: Digest)
    requires CONTROL_NAMES <= tree.Keys
    ensures ManifestIs(host, tree, m, output)
            <==> && RuntimeAccepted(host, tree, m) && m.build.Some?
                 && var build := m.build.value;
                 && build.outputSha == output
                 && EvidenceMatches(host, tree, build.provenance, PROVENANCE)
                 && EvidenceMatches(host, tree, build.content, CONTENT)
                 && EvidenceMatches(host, tree, build.sbom, SBOM)
                 && EvidenceMatches(host, tree, build.licenses, LICENSES)
  {
    hide EvidenceMatches, EvidenceOf, SafeName, RecordsOf, PROVENANCE, CONTENT, SBOM, LICENSES, RUNTIME, Matches;
    if m.assets.Keys <= tree.Keys {
      RecordsExactly(host, tree, m.assets);
    }
    if m.build.Some? {
      var build := m.build.value;
      EvidenceExactly(host, tree, build.provenance, PROVENANCE);
      EvidenceExactly(host, tree, build.content, CONTENT);
      EvidenceExactly(host, tree, build.sbom, SBOM);
      EvidenceExactly(host, tree, build.licenses, LICENSES);
    }
    if ManifestIs(host, tree, m, output) {
      assert |m.assets| > 0;
      assert tree.Keys == CONTROL_NAMES + m.assets.Keys;
    }
  }

  lemma ProvenanceExactly(host: Host, tree: Tree, p: Provenance, output: Digest)
    requires CONTROL_NAMES <= tree.Keys
    ensures ProvenanceIs(host, tree, p, output) <==> ProvenanceAccepted(host, tree, p, output)
  {
    hide HexRevision, SBOM, LICENSES;
    RevisionExactly(p.revision);
  }

  lemma ContentExactly(host: Host, tree: Tree, m: RuntimeManifest, p: Provenance, c: ContentManifest, output: Digest)
    requires tree.Keys == CONTROL_NAMES + m.assets.Keys
    ensures ContentManifestIs(host, tree, m, c, p, output) <==> ContentAccepted(host, tree, m, p, c, output)
  {
    hide Described, RecordsOf, Matches, NamedDigest, PROVENANCE, SBOM, LICENSES, RUNTIME, CONTENT;
    if c.files.Keys == m.assets.Keys + {PROVENANCE, SBOM, LICENSES} {
      RecordsExactly(host, tree, c.files);
    }
  }

  lemma SupplyChainExactly(host: Host, tree: Tree)
    requires SBOM in tree && LICENSES in tree
    ensures SupplyChainAccepted(host, tree)
            <==> && host.sbom(tree[SBOM]).Some? && host.licenses(tree[LICENSES]).Some?
                 && SupplyChainIs(host.sbom(tree[SBOM]).value, host.licenses(tree[LICENSES]).value)
  {
    hide SBOM, LICENSES, FormatValues;
    if host.sbom(tree[SBOM]).Some? && host.sbom(tree[SBOM]).value.properties.Some? {
      FormatExactly(host.sbom(tree[SBOM]).value.properties.value);
    }
  }

  lemma FormatExactly(properties: seq<Property>)
    ensures FormatValues(properties) == {Some(SBOM_FORMAT)}
            <==> && (exists item :: item in properties && item == Property(Some("gigaloom:format-version"),
                                                                           Some("gigaloom-web-sbom-v1")))
                 && (forall item :: item in properties && item.name == Some("gigaloom:format-version") ==>
                       item.value == Some("gigaloom-web-sbom-v1"))
  {
    var wanted := Property(Some("gigaloom:format-version"), Some("gigaloom-web-sbom-v1"));
    if FormatValues(properties) == {Some(SBOM_FORMAT)} {
      assert Some(SBOM_FORMAT) in FormatValues(properties);
      forall item | item in properties && item.name == Some("gigaloom:format-version")
        ensures item.value == Some("gigaloom-web-sbom-v1")
      {
        assert item.value in FormatValues(properties);
      }
    }
    if wanted in properties {
      assert wanted.value in FormatValues(properties);
    }
  }

  lemma FrontendExactly(host: Host, p: Provenance, f: Frontend)
    ensures FrontendIs(host, p, f) <==> FrontendAccepted(host, p, f)
  {
  }

  /** The whole contract, as what each document must be: the tree determines the manifests but for the entry, the
      initial graph and the source revision. */
  lemma ContractExactly(host: Host, tree: Tree, frontend: Option<Frontend>)
    ensures AssetsAccepted(host, tree, frontend)
            <==> && CONTROL_NAMES <= tree.Keys
                 && host.runtime(tree[RUNTIME]).Some? && host.provenance(tree[PROVENANCE]).Some?
                 && host.content(tree[CONTENT]).Some?
                 && host.sbom(tree[SBOM]).Some? && host.licenses(tree[LICENSES]).Some?
                 && var m := host.runtime(tree[RUNTIME]).value;
                 && var p := host.provenance(tree[PROVENANCE]).value;
                 && m.assets.Keys <= tree.Keys
                 && var output := NamedDigest(host, Listed(tree, m.assets.Keys));
                 && ManifestIs(host, tree, m, output) && ProvenanceIs(host, tree, p, output)
                 && tree.Keys == CONTROL_NAMES + m.assets.Keys
                 && ContentManifestIs(host, tree, m, host.content(tree[CONTENT]).value, p, output)
                 && SupplyChainIs(host.sbom(tree[SBOM]).value, host.licenses(tree[LICENSES]).value)
                 && (frontend.Some? ==> FrontendIs(host, p, frontend.value))
  {
    hide RuntimeAccepted, ProvenanceAccepted, ContentAccepted, SupplyChainAccepted, FrontendAccepted, EvidenceMatches;
    hide ManifestIs, ProvenanceIs, ContentManifestIs, SupplyChainIs, FrontendIs, NamedDigest, Listed;
    hide RUNTIME, CONTENT, PROVENANCE, SBOM, LICENSES;
    if RUNTIME in tree && host.runtime(tree[RUNTIME]).Some? {
      KeysOfAccepted(host, tree, host.runtime(tree[RUNTIME]).value);
    }
    if CONTROL_NAMES <= tree.Keys && host.runtime(tree[RUNTIME]).Some? {
      var m := host.runtime(tree[RUNTIME]).value;
      SupplyChainExactly(host, tree);
      if m.assets.Keys <= tree.Keys {
        var output := NamedDigest(host, Listed(tree, m.assets.Keys));
        ManifestExactly(host, tree, m, output);
        if host.provenance(tree[PROVENANCE]).Some? && host.content(tree[CONTENT]).Some? {
          var p := host.provenance(tree[PROVENANCE]).value;
          ProvenanceExactly(host, tree, p, output);
          if frontend.Some? {
            FrontendExactly(host, p, frontend.value);
          }
          if tree.Keys == CONTROL_NAMES + m.assets.Keys {
            ContentExactly(host, tree, m, p, host.content(tree[CONTENT]).value, output);
          }
        }
      }
    }
  }

  lemma KeysOfAccepted(host: Host, tree: Tree, m: RuntimeManifest)
    ensures RuntimeAccepted(host, tree, m) ==>
              tree.Keys == CONTROL_NAMES + m.assets.Keys && m.assets.Keys <= tree.Keys && CONTROL_NAMES <= tree.Keys
  {
  }

  function Names(order: seq<Bytes>): set<Bytes> {
    set name | name in order
  }

  /** A dictionary's keys in its own order. */
  ghost predicate Enumerates(order: seq<Bytes>, names: set<Bytes>) {
    (forall i, j | 0 <= i < j < |order| :: order[i] != order[j]) && names == Names(order)
  }

  lemma ListMore(files: seq<Entry>, tree: Tree, order: seq<Bytes>, i: nat)
    requires i < |order| && order[i] in tree && order[i] !in order[..i]
    requires Lists(files, tree, Names(order[..i]))
    ensures Lists(files + [Entry(order[i], tree[order[i]])], tree, Names(order[..i + 1]))
  {
    assert order[..i + 1] == order[..i] + [order[i]];
    DistinctConcat(files, [Entry(order[i], tree[order[i]])]);
  }

  /** The loop over the manifest's assets: every record is checked, every name expected, every file listed. */
  method CheckAssets(host: Host, tree: Tree, assets: map<Bytes, Record>, order: seq<Bytes>)
    returns (ok: bool, expected: set<Bytes>, files: seq<Entry>)
    requires Enumerates(order, assets.Keys)
    ensures ok
            <==> forall name | name in assets ::
                   SafeName(name) && name in tree && Matches(host, assets[name], tree[name])
    ensures ok ==> expected == CONTROL_NAMES + assets.Keys && Lists(files, tree, assets.Keys)
  {
    hide CONTROL_NAMES, Matches, SafeName;
    ok, expected, files := true, CONTROL_NAMES, [];
    assert order[..0] == [];
    for i := 0 to |order|
      invariant ok
      invariant expected == CONTROL_NAMES + Names(order[..i])
      invariant Lists(files, tree, Names(order[..i]))
      invariant forall name | name in order[..i] ::
                  name in assets && SafeName(name) && Matches(host, assets[name], tree[name])
    {
      var name := order[i];
      assert name in assets.Keys;
      assert order[..i + 1] == order[..i] + [name];
      if !SafeName(name) || name !in tree || !Matches(host, assets[name], tree[name]) {
        return false, expected, files;
      }
      ListMore(files, tree, order, i);
      expected := expected + {name};
      files := files + [Entry(name, tree[name])];
    }
    assert order[..|order|] == order;
  }

  /** The whole contract, check by check; `order` is the order of the manifest's assets. */
  method VerifyContents(host: Host, tree: Tree, order: seq<Bytes>, frontend: Option<Frontend>) returns (accepted: bool)
    requires RUNTIME in tree && host.runtime(tree[RUNTIME]).Some? ==>
               Enumerates(order, host.runtime(tree[RUNTIME]).value.assets.Keys)
    ensures accepted <==> AssetsAccepted(host, tree, frontend)
  {
    hide RUNTIME, CONTENT, PROVENANCE, SBOM, LICENSES, NamedDigest, Matches, Listed, ProvenanceAccepted,
         FrontendAccepted;
    hide EvidenceEntries, Lists, HexRevision, SafeName, SupplyChainAccepted, ASSET_FORMAT, CONTENT_FORMAT;
    if RUNTIME !in tree || host.runtime(tree[RUNTIME]).None? {
      return false;
    }
    var m := host.runtime(tree[RUNTIME]).value;
    if m.version != ASSET_FORMAT || m.assets == map[] || m.initial == [] {
      return false;
    }
    var ok, expected, files := CheckAssets(host, tree, m.assets, order);
    if !ok || m.entry !in m.assets {
      return false;
    }
    if exists i, j | 0 <= i < j < |m.initial| :: m.initial[i] == m.initial[j] {
      return false;
    }
    if exists i | 0 <= i < |m.initial| :: m.initial[i] !in m.assets {
      return false;
    }
    if tree.Keys != expected || m.build.None? {
      return false;
    }
    ListedIs(tree, m.assets.Keys);
    DigestOfLists(host, tree, m.assets.Keys, files, Listed(tree, m.assets.Keys));
    var build := m.build.value;
    var output := NamedDigest(host, files);
    if build.outputSha != output
       || !EvidenceMatches(host, tree, build.provenance, PROVENANCE)
       || !EvidenceMatches(host, tree, build.content, CONTENT)
       || !EvidenceMatches(host, tree, build.sbom, SBOM) || !EvidenceMatches(host, tree, build.licenses, LICENSES)
       || host.provenance(tree[PROVENANCE]).None? || host.content(tree[CONTENT]).None?
    {
      return false;
    }
    var p := host.provenance(tree[PROVENANCE]).value;
    var c := host.content(tree[CONTENT]).value;
    if !ProvenanceAccepted(host, tree, p, output) {
      return false;
    }
    DescribedDigest(host, tree, m, files);
    if c.version != CONTENT_FORMAT || c.revision != p.revision || c.outputSha != output || c.releaseSha != p.releaseSha
       || c.files.Keys != m.assets.Keys + EVIDENCE_NAMES
       || (exists name | name in c.files :: !Matches(host, c.files[name], tree[name]))
       || c.contentSha != NamedDigest(host, files + EvidenceEntries(tree))
    {
      return false;
    }
    return SupplyChainAccepted(host, tree)
           && (frontend.None? || FrontendAccepted(host, p, frontend.value));
  }

  /** Reading a directory gives each file once, or fails on an odd entry or a bound. */
  ghost predicate Readable(root: Listing) {
    !HasOdd(root) && |AllFiles([], root)| <= 512 && ByteCount(AllFiles([], root)) <= 33_554_432
  }

  ghost function TreeOf(files: seq<Entry>): Tree
    requires DistinctPaths(files)
  {
    map e | e in files :: e.path := e.content
  }

  /** The files as a dictionary. */
  method Collect(files: seq<Entry>) returns (tree: Tree)
    requires DistinctPaths(files)
    ensures tree == TreeOf(files)
  {
    tree := map[];
    for i := 0 to |files|
      invariant tree.Keys == set e | e in files[..i] :: e.path
      invariant forall j | 0 <= j < i :: files[j].path in tree && tree[files[j].path] == files[j].content
    {
      assert files[..i + 1] == files[..i] + [files[i]];
      tree := tree[files[i].path := files[i].content];
    }
    assert files[..|files|] == files;
  }

  lemma SameTree(a: seq<Entry>, b: seq<Entry>)
    requires DistinctPaths(a) && DistinctPaths(b) && multiset(a) == multiset(b)
    ensures TreeOf(a) == TreeOf(b)
  {
    forall e ensures e in a <==> e in b {
      assert e in a <==> e in multiset(a);
      assert e in b <==> e in multiset(b);
    }
  }

  /** `verify_asset_tree` on a directory: its files are read, then every part of the contract is checked. */
  method VerifyAssetTree(host: Host, root: Listing, order: seq<Bytes>, frontend: Option<Frontend>)
    returns (accepted: bool)
    requires DistinctPaths(AllFiles([], root))
    requires var tree := TreeOf(AllFiles([], root));
             RUNTIME in tree && host.runtime(tree[RUNTIME]).Some? ==>
               Enumerates(order, host.runtime(tree[RUNTIME]).value.assets.Keys)
    ensures accepted <==> Readable(root) && AssetsAccepted(host, TreeOf(AllFiles([], root)), frontend)
  {
    hide AssetsAccepted, AllFiles, HasOdd, ByteCount, TreeOf, Enumerates, RUNTIME;
    var files := RegularFiles(root);
    if files.None? {
      return false;
    }
    DistinctPermuted(AllFiles([], root), files.value);
    SameTree(AllFiles([], root), files.value);
    var tree := Collect(files.value);
    accepted := VerifyContents(host, tree, order, frontend);
  }

  lemma ListedIs(tree: Tree, names: set<Bytes>)
    requires names <= tree.Keys
    ensures Lists(Listed(tree, names), tree, names)
  {
  }

  lemma DigestOfLists(host: Host, tree: Tree, names: set<Bytes>, a: seq<Entry>, b: seq<Entry>)
    requires Lists(a, tree, names) && Lists(b, tree, names)
    ensures NamedDigest(host, a) == NamedDigest(host, b)
  {
    DigestSame(host, a, b);
  }

  /** The order in which the described files are listed does not matter, even if some are listed twice. */
  lemma DescribedDigest(host: Host, tree: Tree, m: RuntimeManifest, files: seq<Entry>)
    requires tree.Keys == CONTROL_NAMES + m.assets.Keys && Lists(files, tree, m.assets.Keys)
    ensures NamedDigest(host, files + EvidenceEntries(tree)) == NamedDigest(host, Described(tree, m))
  {
    hide RUNTIME, CONTENT, PROVENANCE, SBOM, LICENSES, Listed;
    var listed := Listed(tree, m.assets.Keys);
    ListedIs(tree, m.assets.Keys);
    SameMultiset(files, listed);
    EvidenceFromTree(tree);
    SortedIsUnique(files + EvidenceEntries(tree), listed + EvidenceEntries(tree));
  }

  lemma EvidenceFromTree(tree: Tree)
    requires EVIDENCE_NAMES <= tree.Keys
    ensures forall e | e in EvidenceEntries(tree) :: e.path in tree && e.content == tree[e.path]
  {
  }

  // ---------- The parity check ----------

  ghost predicate InventoryAccepted(host: Host, tree: Tree, c: ContentManifest) {
    var described := tree.Keys - {CONTENT, RUNTIME};
    && c.files.Keys == described && (forall name | name in described :: SafeName(name))
    && (forall name | name in described :: Matches(host, c.files[name], tree[name]))
    && c.contentSha == NamedDigest(host, Listed(tree, described))
  }

  ghost predicate TreeAccepted(host: Host, tree: Tree, release: Bytes) {
    && CONTENT in tree && RUNTIME in tree
    && host.content(tree[CONTENT]).Some? && host.runtime(tree[RUNTIME]).Some?
    && var c := host.content(tree[CONTENT]).value;
    && var m := host.runtime(tree[RUNTIME]).value;
    && c.version == CONTENT_FORMAT && c.releaseSha == host.sha(release) && HexRevision(c.revision)
    && InventoryAccepted(host, tree, c)
    && m.build.Some? && EvidenceMatches(host, tree, m.build.value.content, CONTENT)
    && c.outputSha == m.build.value.outputSha
    && PROVENANCE in tree && host.provenance(tree[PROVENANCE]).Some?
    && var p := host.provenance(tree[PROVENANCE]).value;
    && p.revision == c.revision && p.releaseSha == c.releaseSha
  }

  lemma InventoryExactly(host: Host, tree: Tree, c: ContentManifest)
    ensures var recorded := tree.Keys - {RUNTIME, CONTENT};
            InventoryAccepted(host, tree, c)
            <==> && c.files == RecordsOf(host, tree, recorded)
                 && c.contentSha == NamedDigest(host, Listed(tree, recorded))
                 && (forall name | name in recorded :: SafeName(name))
  {
    hide NamedDigest, Listed, SafeName, Matches, RecordsOf, RUNTIME, CONTENT;
    assert tree.Keys - {RUNTIME, CONTENT} == tree.Keys - {CONTENT, RUNTIME};
    if c.files.Keys == tree.Keys - {RUNTIME, CONTENT} {
      RecordsExactly(host, tree, c.files);
    }
  }

  /** The same as what the documents must be: the content manifest records every file but itself and the runtime
      manifest, whole and with its aggregate; it is bound to the release, and the other two are bound to it. */
  lemma ParityTreeExactly(host: Host, tree: Tree, release: Bytes)
    ensures TreeAccepted(host, tree, release)
            <==> && {RUNTIME, CONTENT, PROVENANCE} <= tree.Keys
                 && host.runtime(tree[RUNTIME]).Some? && host.content(tree[CONTENT]).Some?
                 && host.provenance(tree[PROVENANCE]).Some?
                 && var c := host.content(tree[CONTENT]).value;
                 && var p := host.provenance(tree[PROVENANCE]).value;
                 && var recorded := tree.Keys - {RUNTIME, CONTENT};
                 && c == ContentManifest("gigaloom-web-content-manifest-v1", p.revision, c.outputSha, host.sha(release),
                                         RecordsOf(host, tree, recorded), NamedDigest(host, Listed(tree, recorded)))
                 && p.releaseSha == host.sha(release)
                 && (|c.revision| == 40 || |c.revision| == 64)
                 && (forall i | 0 <= i < |c.revision| :: LowerHex(c.revision[i]))
                 && (forall name | name in recorded :: SafeName(name))
                 && var build := host.runtime(tree[RUNTIME]).value.build;
                 && build.Some? && build.value.outputSha == c.outputSha
                 && build.value.content == EvidenceOf(host, tree, CONTENT)
  {
    hide NamedDigest, Listed, SafeName, HexRevision, EvidenceMatches, EvidenceOf, RecordsOf, InventoryAccepted;
    hide RUNTIME, CONTENT, PROVENANCE;
    if {RUNTIME, CONTENT, PROVENANCE} <= tree.Keys && host.content(tree[CONTENT]).Some? {
      var c := host.content(tree[CONTENT]).value;
      RevisionExactly(c.revision);
      InventoryExactly(host, tree, c);
      if host.runtime(tree[RUNTIME]).Some? && host.runtime(tree[RUNTIME]).value.build.Some? {
        EvidenceExactly(host, tree, host.runtime(tree[RUNTIME]).value.build.value.content, CONTENT);
      }
    }
  }

  ghost predicate ParityAccepted(host: Host, python: Tree, npm: Tree, release: Bytes) {
    && TreeAccepted(host, python, release) && TreeAccepted(host, npm, release)
    && python.Keys == npm.Keys
    && (forall name | name in python :: python[name] == npm[name])
    && host.content(python[CONTENT]) == host.content(npm[CONTENT])
  }

  // ---------- Laws ----------

  ghost predicate Injective(sha: Bytes -> Digest) {
    forall a, b :: sha(a) == sha(b) ==> a == b
  }

  lemma SameMultiset(a: seq<Entry>, b: seq<Entry>)
    requires DistinctPaths(a) && DistinctPaths(b) && forall e :: e in a <==> e in b
    ensures multiset(a) == multiset(b)
  {
    forall e ensures multiset(a)[e] == multiset(b)[e] {
      OnceInDistinct(a, e);
      OnceInDistinct(b, e);
    }
  }

  lemma SameFilesSameOrder(a: seq<Entry>, b: seq<Entry>)
    requires DistinctPaths(a) && DistinctPaths(b) && forall e :: e in a <==> e in b
    ensures SortedByPath(a) == SortedByPath(b)
  {
    SameMultiset(a, b);
    SortedIsUnique(a, b);
  }

  function StreamLength(files: seq<Entry>): nat {
    if files == [] then 0 else |files[0].path| + |files[0].content| + 2 + StreamLength(files[1..])
  }

  lemma {:induction false} LengthOfStream(files: seq<Entry>)
    ensures |NamedStream(files)| == StreamLength(files)
  {
    if files != [] {
      LengthOfStream(files[1..]);
    }
  }

  lemma {:induction false} LengthConcat(a: seq<Entry>, b: seq<Entry>)
    ensures StreamLength(a + b) == StreamLength(a) + StreamLength(b)
  {
    if a == [] {
      assert a + b == b;
    } else {
      assert (a + b)[1..] == a[1..] + b;
      LengthConcat(a[1..], b);
    }
  }

  lemma {:induction false} LengthOfInsert(e: Entry, sorted: seq<Entry>)
    ensures StreamLength(Insert(e, sorted)) == StreamLength([e]) + StreamLength(sorted)
  {
    hide Less;
    assert [e][1..] == [];
    if sorted == [] || Less(e.path, sorted[0].path) {
      LengthConcat([e], sorted);
    } else {
      LengthOfInsert(e, sorted[1..]);
      LengthConcat([sorted[0]], Insert(e, sorted[1..]));
      assert [sorted[0]][1..] == [];
    }
  }

  lemma {:induction false} LengthOfSorted(files: seq<Entry>)
    ensures StreamLength(SortedByPath(files)) == StreamLength(files)
  {
    if files != [] {
      LengthOfSorted(files[1..]);
      LengthOfInsert(files[0], SortedByPath(files[1..]));
      assert [files[0]][1..] == [];
    }
  }

  lemma DigestDiffers(host: Host, a: seq<Entry>, b: seq<Entry>)
    requires Injective(host.sha) && StreamLength(a) != StreamLength(b)
    ensures NamedDigest(host, a) != NamedDigest(host, b)
  {
    LengthOfStream(SortedByPath(a));
    LengthOfStream(SortedByPath(b));
    LengthOfSorted(a);
    LengthOfSorted(b);
  }

  lemma DigestSame(host: Host, a: seq<Entry>, b: seq<Entry>)
    requires DistinctPaths(a) && DistinctPaths(b) && forall e :: e in a <==> e in b
    ensures NamedDigest(host, a) == NamedDigest(host, b)
  {
    SameFilesSameOrder(a, b);
  }

  predicate NoControlAsset(m: RuntimeManifest) {
    m.assets.Keys !! CONTROL_NAMES
  }

  /** Without a control name among the assets both checkers hash the same files. */
  lemma SameInventory(tree: Tree, m: RuntimeManifest)
    requires tree.Keys == CONTROL_NAMES + m.assets.Keys && NoControlAsset(m)
    ensures tree.Keys - {CONTENT, RUNTIME} == m.assets.Keys + EVIDENCE_NAMES
    ensures DistinctPaths(Described(tree, m))
    ensures forall e :: e in Described(tree, m) <==> e in Listed(tree, tree.Keys - {CONTENT, RUNTIME})
  {
    ControlNamesDiffer();
    EvidenceIsListed(tree);
    hide RUNTIME, CONTENT, PROVENANCE, SBOM, LICENSES, Listed, EvidenceEntries;
    assert tree.Keys - {CONTENT, RUNTIME} == m.assets.Keys + EVIDENCE_NAMES;
    DistinctConcat(Listed(tree, m.assets.Keys), EvidenceEntries(tree));
  }

  lemma TwoPartsAreSafe(a: Bytes, b: Bytes)
    requires |a| > 2 && |b| > 2 && 47 !in a && 47 !in b && 92 !in a && 92 !in b
    ensures SafeName(a + [47] + b)
  {
    SplitTwo(a, 47, b);
  }

  lemma ProvenanceIsSafe()
    ensures SafeName(PROVENANCE)
  {
    hide SafeName;
    TwoPartsAreSafe(BUILD, PROVENANCE_LEAF);
  }

  lemma SbomIsSafe()
    ensures SafeName(SBOM)
  {
    hide SafeName;
    TwoPartsAreSafe(BUILD, SBOM_LEAF);
  }

  lemma LicensesAreSafe()
    ensures SafeName(LICENSES)
  {
    hide SafeName;
    TwoPartsAreSafe(BUILD, LICENSES_LEAF);
  }

  lemma ContentIsSafe()
    ensures SafeName(CONTENT)
  {
    hide SafeName;
    TwoPartsAreSafe(BUILD, CONTENT_LEAF);
  }

  lemma RuntimeIsSafe()
    ensures SafeName(RUNTIME)
  {
    hide SplitOn;
    SplitOne(RUNTIME, 47);
  }

  /** The names of the control files are safe. */
  lemma ControlNamesAreSafe()
    ensures forall name | name in CONTROL_NAMES :: SafeName(name)
  {
    hide SafeName, RUNTIME, CONTENT, PROVENANCE, SBOM, LICENSES;
    ProvenanceIsSafe();
    SbomIsSafe();
    LicensesAreSafe();
    ContentIsSafe();
    RuntimeIsSafe();
  }

  lemma DistinctConcat(a: seq<Entry>, b: seq<Entry>)
    requires DistinctPaths(a) && DistinctPaths(b)
    requires forall x, y | x in a && y in b :: x.path != y.path
    ensures DistinctPaths(a + b)
  {
  }

  lemma {:induction false} SubsetIsShorter(part: seq<Entry>, whole: seq<Entry>)
    requires DistinctPaths(part) && forall e | e in part :: e in whole
    ensures StreamLength(part) <= StreamLength(whole)
  {
    if part != [] {
      var e := part[0];
      assert e in part;
      var i :| 0 <= i < |whole| && whole[i] == e;
      var rest := whole[..i] + whole[i + 1..];
      assert part == [e] + part[1..];
      forall x | x in part[1..] ensures x in rest {
        assert x in part;
        var j :| 0 <= j < |whole| && whole[j] == x;
        assert j != i;
        assert x == if j < i then rest[j] else rest[j - 1];
      }
      SubsetIsShorter(part[1..], rest);
      LengthWithout(whole, i);
      LengthConcat([e], part[1..]);
    }
  }

  lemma LengthWithout(whole: seq<Entry>, i: nat)
    requires i < |whole|
    ensures StreamLength(whole) == StreamLength([whole[i]]) + StreamLength(whole[..i] + whole[i + 1..])
  {
    assert whole == whole[..i] + whole[i..] && whole[i..] == [whole[i]] + whole[i + 1..];
    LengthConcat(whole[..i], whole[i..]);
    LengthConcat([whole[i]], whole[i + 1..]);
    LengthConcat(whole[..i], whole[i + 1..]);
  }

  lemma MissingIsShorter(part: seq<Entry>, whole: seq<Entry>, i: nat)
    requires DistinctPaths(part) && i < |whole| && forall e | e in part :: e in whole && e != whole[i]
    ensures StreamLength(part) < StreamLength(whole)
  {
    var rest := whole[..i] + whole[i + 1..];
    forall x | x in part ensures x in rest {
      var j :| 0 <= j < |whole| && whole[j] == x;
      assert x == if j < i then rest[j] else rest[j - 1];
    }
    SubsetIsShorter(part, rest);
    LengthWithout(whole, i);
  }

  /** A file listed twice changes the digest. */
  lemma DoubledDiffers(host: Host, tree: Tree, assets: set<Bytes>, evidence: set<Bytes>, listed: seq<Entry>,
                       doubled: Bytes)
    requires Injective(host.sha) && assets + evidence <= tree.Keys && Lists(listed, tree, evidence)
    requires doubled in assets && doubled in evidence
    ensures NamedDigest(host, Listed(tree, assets) + listed) != NamedDigest(host, Listed(tree, assets + evidence))
  {
    hide NamedDigest, Listed, Injective;
    var extra := Listed(tree, evidence - assets);
    var base := Listed(tree, assets);
    DistinctConcat(base, extra);
    DigestSame(host, base + extra, Listed(tree, assets + evidence));
    assert Entry(doubled, tree[doubled]) in listed;
    var i :| 0 <= i < |listed| && listed[i] == Entry(doubled, tree[doubled]);
    MissingIsShorter(extra, listed, i);
    LengthConcat(base, extra);
    LengthConcat(base, listed);
    DigestDiffers(host, base + extra, base + listed);
  }

  lemma OthersAreDescribed(names: set<Bytes>, assets: set<Bytes>)
    requires names == CONTROL_NAMES + assets && CONTENT !in assets && RUNTIME !in assets
    ensures names - {CONTENT, RUNTIME} == assets + EVIDENCE_NAMES
  {
    ControlNamesDiffer();
    hide RUNTIME, CONTENT, PROVENANCE, SBOM, LICENSES;
  }

  lemma EvidenceDoubled(assets: set<Bytes>) returns (doubled: Bytes)
    requires !(assets !! CONTROL_NAMES) && CONTENT !in assets && RUNTIME !in assets
    ensures doubled in assets && doubled in EVIDENCE_NAMES
  {
    hide RUNTIME, CONTENT, PROVENANCE, SBOM, LICENSES;
    doubled :| doubled in assets && doubled in CONTROL_NAMES;
  }

  /** With a control name among the assets the inventories or the hashed streams differ. */
  lemma InventoryDiffers(host: Host, tree: Tree, m: RuntimeManifest, c: ContentManifest)
    requires Injective(host.sha) && tree.Keys == CONTROL_NAMES + m.assets.Keys && !NoControlAsset(m)
    requires c.files.Keys == m.assets.Keys + EVIDENCE_NAMES && c.contentSha == NamedDigest(host, Described(tree, m))
    ensures !InventoryAccepted(host, tree, c)
  {
    hide RUNTIME, CONTENT, EVIDENCE_NAMES, NamedDigest, Listed, Injective, EvidenceEntries;
    if CONTENT !in m.assets && RUNTIME !in m.assets {
      OthersAreDescribed(tree.Keys, m.assets.Keys);
      EvidenceIsListed(tree);
      var doubled := EvidenceDoubled(m.assets.Keys);
      DoubledDiffers(host, tree, m.assets.Keys, EVIDENCE_NAMES, EvidenceEntries(tree), doubled);
    } else {
      NeitherIsEvidence();
    }
  }

  lemma NeitherIsEvidence()
    ensures CONTENT !in EVIDENCE_NAMES && RUNTIME !in EVIDENCE_NAMES
  {
    ControlNamesDiffer();
  }

  lemma EvidenceIsListed(tree: Tree)
    requires EVIDENCE_NAMES <= tree.Keys
    ensures Lists(EvidenceEntries(tree), tree, EVIDENCE_NAMES)
  {
    ControlNamesDiffer();
    hide RUNTIME, CONTENT, PROVENANCE, SBOM, LICENSES;
  }

  lemma ReleaseBound(host: Host, tree: Tree, f: Frontend)
    requires AssetsAccepted(host, tree, Some(f))
    ensures host.content(tree[CONTENT]).value.releaseSha == host.sha(f.release)
    ensures HexRevision(host.content(tree[CONTENT]).value.revision)
  {
    hide RUNTIME, CONTENT, PROVENANCE, SBOM, LICENSES, NamedDigest, HexRevision, SafeName, Matches, SupplyChainAccepted;
  }

  /**
   A tree that the asset contract accepts beside its frontend passes the parity checker, for the same
   release manifest, exactly if no runtime asset has the name of a control file.
   */
  lemma AcceptedPassesParity(host: Host, tree: Tree, f: Frontend)
    requires Injective(host.sha) && AssetsAccepted(host, tree, Some(f))
    ensures TreeAccepted(host, tree, f.release) <==> NoControlAsset(host.runtime(tree[RUNTIME]).value)
  {
    var m := host.runtime(tree[RUNTIME]).value;
    var c := host.content(tree[CONTENT]).value;
    hide RUNTIME, CONTENT, PROVENANCE, SBOM, LICENSES, NamedDigest, HexRevision, Injective, SafeName, Matches;
    hide SupplyChainAccepted, FrontendAccepted, EvidenceEntries, Listed;
    hide ASSET_FORMAT, CONTENT_FORMAT, PROVENANCE_FORMAT;
    ReleaseBound(host, tree, f);
    ControlNamesAreSafe();
    if NoControlAsset(m) {
      SameInventory(tree, m);
      DigestSame(host, Described(tree, m), Listed(tree, tree.Keys - {CONTENT, RUNTIME}));
    } else {
      InventoryDiffers(host, tree, m, c);
    }
  }

  /** What the parity checker reads a directory as: bounded, regular, named safely, not empty. */
  ghost predicate ParityReads(root: Listing) {
    && Readable(root) && AllFiles([], root) != []
    && forall e | e in AllFiles([], root) :: SafeName(e.path)
  }

  /** From the directory on: an accepted one is read by the parity checker, and passes under that condition. */
  lemma AcceptedDirectoryPassesParity(host: Host, root: Listing, f: Frontend)
    requires Injective(host.sha) && DistinctPaths(AllFiles([], root)) && Readable(root)
    requires AssetsAccepted(host, TreeOf(AllFiles([], root)), Some(f))
    ensures var tree := TreeOf(AllFiles([], root));
            && ParityReads(root)
            && RUNTIME in tree && host.runtime(tree[RUNTIME]).Some?
            && (TreeAccepted(host, tree, f.release) <==> NoControlAsset(host.runtime(tree[RUNTIME]).value))
  {
    hide RUNTIME, AssetsAccepted, TreeAccepted, AllFiles, HasOdd, Bounded, SafeName, Injective, NoControlAsset;
    var files := AllFiles([], root);
    var tree := TreeOf(files);
    AcceptedNamesAreSafe(host, tree, f);
    AcceptedPassesParity(host, tree, f);
    forall e | e in files ensures SafeName(e.path) {
      assert e.path in tree;
    }
    assert RUNTIME in tree;
  }

  lemma AcceptedNamesAreSafe(host: Host, tree: Tree, f: Frontend)
    requires AssetsAccepted(host, tree, Some(f))
    ensures RUNTIME in tree && host.runtime(tree[RUNTIME]).Some? && forall name | name in tree :: SafeName(name)
  {
    hide RUNTIME, CONTENT, PROVENANCE, SBOM, LICENSES, SafeName, Matches, NamedDigest, SupplyChainAccepted, HexRevision;
    ControlNamesAreSafe();
  }

  /** Two trees pass the parity check together exactly if they are the same tree and it passes. */
  lemma ParityExactly(host: Host, python: Tree, npm: Tree, release: Bytes)
    ensures ParityAccepted(host, python, npm, release) <==> python == npm && TreeAccepted(host, python, release)
  {
    hide TreeAccepted, RUNTIME, CONTENT;
    if ParityAccepted(host, python, npm, release) {
      assert python == npm;
    }
  }

  /** One release candidate, checked twice: the same tree published both ways passes the parity check. */
  lemma AcceptedTreeHasParity(host: Host, tree: Tree, f: Frontend)
    requires Injective(host.sha) && AssetsAccepted(host, tree, Some(f))
    requires NoControlAsset(host.runtime(tree[RUNTIME]).value)
    ensures ParityAccepted(host, tree, tree, f.release)
  {
    hide RUNTIME, CONTENT, TreeAccepted, AssetsAccepted;
    AcceptedPassesParity(host, tree, f);
    ParityExactly(host, tree, tree, f.release);
  }

  /** Accepted trees with the same content manifest have the same described files, byte for byte. */
  lemma ContentManifestIdentifiesFiles(host: Host, a: Tree, b: Tree, release: Bytes)
    requires Injective(host.sha) && TreeAccepted(host, a, release) && TreeAccepted(host, b, release)
    requires a[CONTENT] == b[CONTENT]
    ensures a.Keys == b.Keys && forall name | name in a && name != RUNTIME :: a[name] == b[name]
  {
    hide RUNTIME, CONTENT, PROVENANCE, NamedDigest, HexRevision;
    assert a.Keys == (a.Keys - {CONTENT, RUNTIME}) + {CONTENT, RUNTIME};
    assert b.Keys == (b.Keys - {CONTENT, RUNTIME}) + {CONTENT, RUNTIME};
    var c := host.content(a[CONTENT]).value;
    forall name | name in a && name != RUNTIME ensures a[name] == b[name] {
      if name != CONTENT {
        assert name in a.Keys - {CONTENT, RUNTIME} && name in b.Keys - {CONTENT, RUNTIME};
        assert host.sha(a[name]) == c.files[name].sha == host.sha(b[name]);
      }
    }
  }

  /**
   The aggregate digest alone would not do: its stream ends names and contents with a NUL that a
   content may contain, and so two different lists of files can give one stream.
   */
  lemma StreamIsNotInjective(name: Bytes, other: Bytes, x: Bytes, y: Bytes)
    requires Less(name, other)
    ensures var one := [Entry(name, x + [0] + other + [0] + y)];
            var two := [Entry(name, x), Entry(other, y)];
            Ascending(one) && Ascending(two) && one != two && NamedStream(one) == NamedStream(two)
  {
    var one := [Entry(name, x + [0] + other + [0] + y)];
    var two := [Entry(name, x), Entry(other, y)];
    assert one[1..] == [] && two[1..] == [two[1]] && two[1..][1..] == [];
    assert NamedStream(two[1..]) == other + [0] + y + [0];
    assert NamedStream(one) == name + [0] + (x + [0] + other + [0] + y) + [0];
    assert NamedStream(two) == name + [0] + x + [0] + (other + [0] + y + [0]);
  }

  // ---------- When the aggregate stream does identify the files ----------

  predicate NulFree(b: Bytes) {
    0 !in b
  }

  /** No file system has a NUL in a path. */
  predicate PlainPaths(files: seq<Entry>) {
    forall i | 0 <= i < |files| :: NulFree(files[i].path)
  }

  predicate PlainContents(files: seq<Entry>) {
    forall i | 0 <= i < |files| :: NulFree(files[i].content)
  }

  function Nuls(b: Bytes): nat {
    if b == [] then 0 else (if b[0] == 0 then 1 else 0) + Nuls(b[1..])
  }

  lemma {:induction false} NulsConcat(a: Bytes, b: Bytes)
    ensures Nuls(a + b) == Nuls(a) + Nuls(b)
  {
    if a == [] {
      assert a + b == b;
    } else {
      assert (a + b)[1..] == a[1..] + b;
      NulsConcat(a[1..], b);
    }
  }

  lemma {:induction false} NoNuls(b: Bytes)
    ensures NulFree(b) <==> Nuls(b) == 0
  {
    if b != [] {
      NoNuls(b[1..]);
      assert b == [b[0]] + b[1..];
    }
  }

  /** A field that ends at the first NUL is determined by the stream. */
  lemma {:induction false} FieldEnds(p: Bytes, x: Bytes, q: Bytes, y: Bytes)
    requires NulFree(p) && NulFree(q) && p + [0] + x == q + [0] + y
    ensures p == q && x == y
  {
    var s, t := p + [0] + x, q + [0] + y;
    FirstByte(p, x);
    FirstByte(q, y);
    if p == [] {
      assert s[1..] == x && t[1..] == y;
    } else {
      assert s[0] == p[0] && t[0] == q[0];
      assert s[1..] == p[1..] + [0] + x && t[1..] == q[1..] + [0] + y;
      FieldEnds(p[1..], x, q[1..], y);
      assert p == [p[0]] + p[1..] && q == [q[0]] + q[1..];
    }
  }

  lemma FirstByte(p: Bytes, x: Bytes)
    requires NulFree(p)
    ensures (p + [0] + x)[0] == 0 <==> p == []
  {
    assert p != [] ==> (p + [0] + x)[0] == p[0] && p[0] in p;
  }

  function AfterPath(files: seq<Entry>): Bytes
    requires files != []
  {
    files[0].content + [0] + NamedStream(files[1..])
  }

  lemma StreamOpens(files: seq<Entry>)
    requires files != []
    ensures NamedStream(files) == files[0].path + [0] + AfterPath(files)
  {
    var more := NamedStream(files[1..]);
    assert files[0].path + [0] + files[0].content + [0] + more == files[0].path + [0] + (files[0].content + [0] + more);
  }

  /** Where neither paths nor contents hold a NUL, the stream identifies the list. */
  lemma {:induction false} NulFreeStreamsIdentify(a: seq<Entry>, b: seq<Entry>)
    requires PlainPaths(a) && PlainContents(a) && PlainPaths(b) && PlainContents(b)
    ensures NamedStream(a) == NamedStream(b) <==> a == b
  {
    hide NamedStream, NulFree;
    StreamIsEmpty(a);
    StreamIsEmpty(b);
    if a != [] && b != [] && NamedStream(a) == NamedStream(b) {
      StreamOpens(a);
      StreamOpens(b);
      FieldEnds(a[0].path, AfterPath(a), b[0].path, AfterPath(b));
      FieldEnds(a[0].content, NamedStream(a[1..]), b[0].content, NamedStream(b[1..]));
      NulFreeStreamsIdentify(a[1..], b[1..]);
      assert a == [a[0]] + a[1..] && b == [b[0]] + b[1..];
    }
  }

  lemma StreamIsEmpty(files: seq<Entry>)
    ensures NamedStream(files) == [] <==> files == []
  {
  }

  /** Where the lengths agree file by file, the stream identifies the list, whatever it holds. */
  lemma {:induction false} SameLengthStreamsIdentify(a: seq<Entry>, b: seq<Entry>)
    requires |a| == |b|
    requires forall i | 0 <= i < |a| :: |a[i].path| == |b[i].path| && |a[i].content| == |b[i].content|
    ensures NamedStream(a) == NamedStream(b) <==> a == b
  {
    if a != [] && NamedStream(a) == NamedStream(b) {
      var s, t := NamedStream(a), NamedStream(b);
      StreamOpens(a);
      StreamOpens(b);
      var n := |a[0].path|;
      assert a[0].path == s[..n] == t[..n] == b[0].path;
      assert AfterPath(a) == s[n + 1..] == t[n + 1..] == AfterPath(b);
      var m := |a[0].content|;
      assert a[0].content == AfterPath(a)[..m] == AfterPath(b)[..m] == b[0].content;
      assert NamedStream(a[1..]) == AfterPath(a)[m + 1..] == AfterPath(b)[m + 1..] == NamedStream(b[1..]);
      SameLengthStreamsIdentify(a[1..], b[1..]);
      assert a == [a[0]] + a[1..] && b == [b[0]] + b[1..];
    }
  }

  /** No other list of files has the same stream. */
  ghost predicate Identified(a: seq<Entry>) {
    forall b | PlainPaths(b) && NamedStream(b) == NamedStream(a) :: b == a
  }

  lemma {:induction false} TwoNulsAFile(files: seq<Entry>)
    ensures Nuls(NamedStream(files)) >= 2 * |files|
  {
    if files != [] {
      var more := NamedStream(files[1..]);
      TwoNulsAFile(files[1..]);
      NulsConcat(files[0].path + [0] + files[0].content + [0], more);
      NulsConcat(files[0].path + [0] + files[0].content, [0]);
      NulsConcat(files[0].path + [0], files[0].content);
      NulsConcat(files[0].path, [0]);
    }
  }

  lemma NulsOfOne(e: Entry)
    requires NulFree(e.path)
    ensures NamedStream([e]) == e.path + [0] + e.content + [0] && Nuls(NamedStream([e])) == 2 + Nuls(e.content)
  {
    assert [e][1..] == [] && NamedStream([]) == [];
    assert NamedStream([e]) == e.path + [0] + e.content + [0];
    NoNuls(e.path);
    NulsConcat(e.path + [0] + e.content, [0]);
    NulsConcat(e.path + [0], e.content);
    NulsConcat(e.path, [0]);
  }

  /** The first NUL of a content that has one. */
  lemma {:induction false} FirstNul(b: Bytes) returns (x: Bytes, y: Bytes)
    requires Nuls(b) > 0
    ensures b == x + [0] + y && NulFree(x) && Nuls(y) == Nuls(b) - 1
  {
    if b[0] == 0 {
      x, y := [], b[1..];
    } else {
      x, y := FirstNul(b[1..]);
      x := [b[0]] + x;
      assert b == [b[0]] + b[1..];
    }
  }

  /** Several files always share their stream with one file that has the rest as its content. */
  lemma SeveralAreNotIdentified(a: seq<Entry>)
    requires PlainPaths(a) && |a| >= 2
    ensures !Identified(a)
  {
    StreamOpens(a);
    StreamOpens(a[1..]);
    StreamEnds(a);
    var content := AfterPath(a)[..|AfterPath(a)| - 1];
    var one := [Entry(a[0].path, content)];
    NulsOfOne(one[0]);
    assert AfterPath(a) == content + [0];
    assert NamedStream(one) == NamedStream(a);
    assert PlainPaths(one) && one != a;
  }

  lemma {:induction false} StreamEnds(files: seq<Entry>)
    requires files != []
    ensures AfterPath(files)[|AfterPath(files)| - 1] == 0
  {
    if |files| > 1 {
      StreamOpens(files[1..]);
      StreamEnds(files[1..]);
    } else {
      assert files[1..] == [];
    }
  }

  /** Two NULs in a content let the stream be read as two files. */
  lemma TwoNulsAreNotIdentified(e: Entry)
    requires NulFree(e.path) && Nuls(e.content) >= 2
    ensures !Identified([e])
  {
    var x, rest := FirstNul(e.content);
    var p, y := FirstNul(rest);
    var two := [Entry(e.path, x), Entry(p, y)];
    NulsOfOne(e);
    StreamOpens(two);
    assert two[1..] == [two[1]];
    NulsOfOne(two[1]);
    assert e.content == x + [0] + (p + [0] + y);
    assert NamedStream(two) == e.path + [0] + (x + [0] + (p + [0] + y + [0]));
    assert NamedStream(two) == NamedStream([e]);
    assert PlainPaths(two) && two != [e];
  }

  lemma OneIsIdentified(e: Entry)
    requires NulFree(e.path) && Nuls(e.content) <= 1
    ensures Identified([e])
  {
    NulsOfOne(e);
    forall b: seq<Entry> | PlainPaths(b) && NamedStream(b) == NamedStream([e]) ensures b == [e] {
      TwoNulsAFile(b);
      StreamIsEmpty(b);
      StreamIsEmpty([e]);
      assert |b| == 1;
      NulsOfOne(b[0]);
      assert b == [b[0]];
      assert NamedStream(b) == b[0].path + [0] + (b[0].content + [0]);
      assert NamedStream([e]) == e.path + [0] + (e.content + [0]);
      FieldEnds(b[0].path, b[0].content + [0], e.path, e.content + [0]);
      assert (b[0].content + [0])[..|b[0].content|] == (e.content + [0])[..|e.content|];
    }
  }

  /**
   Among all lists of files the aggregate stream identifies a list by itself exactly if the list is
   empty or one file with at most one NUL in it: never a tree of two files or more.
   */
  lemma IdentifiedExactly(a: seq<Entry>)
    requires PlainPaths(a)
    ensures Identified(a) <==> a == [] || (|a| == 1 && Nuls(a[0].content) <= 1)
  {
    hide Identified, NamedStream, Nuls;
    if a == [] {
      NothingIsIdentified();
    } else if |a| == 1 {
      assert a == [a[0]];
      if Nuls(a[0].content) <= 1 {
        OneIsIdentified(a[0]);
      } else {
        TwoNulsAreNotIdentified(a[0]);
      }
    } else {
      SeveralAreNotIdentified(a);
    }
  }

  lemma NothingIsIdentified()
    ensures Identified([])
  {
    forall b: seq<Entry> | NamedStream(b) == NamedStream([]) ensures b == [] {
      StreamIsEmpty(b);
    }
  }

  /** The contract can be met, with a hash that never collides: a tree of empty files that describes itself. */
  lemma {:induction false} AcceptedTreesExist() returns (host: Host, tree: Tree, f: Frontend)
    ensures Injective(host.sha) && AssetsAccepted(host, tree, Some(f))
    ensures NoControlAsset(host.runtime(tree[RUNTIME]).value)
  {
    ControlNamesDiffer();
    hide RUNTIME, CONTENT, PROVENANCE, SBOM, LICENSES, SortedByPath, NamedStream, Listed, EvidenceEntries, HexRevision;
    hide SafeName, SupplyChainAccepted, ASSET_FORMAT, PROVENANCE_FORMAT, CONTENT_FORMAT, AssetsAccepted, EmptySbom,
         EmptyLicenses;
    var name: Bytes := [97];
    NameIsNoControl(name);
    ShortIsSafe(name);
    var sha: Bytes -> Digest := b => b;
    var empty := Record(0, []);
    tree := map[RUNTIME := [], CONTENT := [], PROVENANCE := [], SBOM := [], LICENSES := [], name := []];
    var assets := map[name := empty];
    assert assets.Keys == {name} && tree.Keys == CONTROL_NAMES + {name};
    var output := NamedStream(SortedByPath(Listed(tree, {name})));
    var m := RuntimeManifest(ASSET_FORMAT, name, [name], assets,
                             Some(Build(output, Evidence(PROVENANCE, empty), Evidence(CONTENT, empty),
                                        Evidence(SBOM, empty),
                                        Evidence(LICENSES, empty))));
    var revision := ZeroRevision();
    var p := Provenance(PROVENANCE_FORMAT, true, revision, output, [], [], [], 0,
                        NamedStream(SortedByPath([])), [], []);
    var files := map n | n in assets.Keys + EVIDENCE_NAMES :: empty;
    var c := ContentManifest(CONTENT_FORMAT, revision, output, [], files,
                             NamedStream(SortedByPath(Described(tree, m))));
    host := Host(sha, _ => Some(m), _ => Some(c), _ => Some(p), _ => Some(EmptySbom()), _ => Some(EmptyLicenses()));
    f := Frontend([], [], [], None, []);
    assert files.Keys == assets.Keys + EVIDENCE_NAMES;
    EmptySupplyChain(host, tree);
    assert RuntimeAccepted(host, tree, m);
    assert ContentAccepted(host, tree, m, p, c, output);
    Assembled(host, tree, f, m, p, c);
  }

  lemma Assembled(host: Host, tree: Tree, f: Frontend, m: RuntimeManifest, p: Provenance, c: ContentManifest)
    requires RUNTIME in tree && host.runtime(tree[RUNTIME]) == Some(m) && RuntimeAccepted(host, tree, m)
             && m.build.Some?
    requires var build := m.build.value;
             && build.outputSha == NamedDigest(host, Listed(tree, m.assets.Keys))
             && EvidenceMatches(host, tree, build.provenance, PROVENANCE)
             && EvidenceMatches(host, tree, build.content, CONTENT)
             && EvidenceMatches(host, tree, build.sbom, SBOM) && EvidenceMatches(host, tree, build.licenses, LICENSES)
    requires host.provenance(tree[PROVENANCE]) == Some(p) && host.content(tree[CONTENT]) == Some(c)
    requires ProvenanceAccepted(host, tree, p, m.build.value.outputSha) && SupplyChainAccepted(host, tree)
    requires ContentAccepted(host, tree, m, p, c, m.build.value.outputSha) && FrontendAccepted(host, p, f)
    ensures AssetsAccepted(host, tree, Some(f))
  {
    hide RUNTIME, CONTENT, PROVENANCE, SBOM, LICENSES, Matches;
  }

  function FormatProperty(): Property {
    Property(Some("gigaloom:format-version"), Some(SBOM_FORMAT))
  }

  function EmptySbom(): Sbom {
    Sbom("CycloneDX", "1.6", Some([FormatProperty()]), Some(0))
  }

  function EmptyLicenses(): Licenses {
    Licenses(LICENSE_FORMAT, Some(0), Some(0))
  }

  lemma EmptySupplyChain(host: Host, tree: Tree)
    requires SBOM in tree && LICENSES in tree
    requires host.sbom(tree[SBOM]) == Some(EmptySbom()) && host.licenses(tree[LICENSES]) == Some(EmptyLicenses())
    ensures SupplyChainAccepted(host, tree)
  {
    hide SBOM, LICENSES, SBOM_FORMAT, LICENSE_FORMAT;
    assert FormatValues([FormatProperty()]) == {Some(SBOM_FORMAT)} by {
      assert FormatProperty() in [FormatProperty()];
    }
  }

  lemma ZeroRevision() returns (revision: string)
    ensures HexRevision(revision)
  {
    revision := seq(40, _ => '0');
  }

  lemma ShortIsSafe(name: Bytes)
    requires |name| == 1 && name[0] !in {46, 47, 92}
    ensures SafeName(name)
  {
    SplitOne(name, 47);
  }

  lemma NameIsNoControl(name: Bytes)
    requires |name| == 1
    ensures name !in CONTROL_NAMES
  {
    assert |RUNTIME| == 13 && |CONTENT| == 28 && |PROVENANCE| == 22 && |SBOM| == |LICENSES| == 20;
  }
}
