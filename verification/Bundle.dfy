/**
 Evidence bundles: one program builds them, another imports them.

 Bytes are modelled by what they encode: the canonical encoding of a document, or anything
 else.  A digest is modelled by the bytes it is computed from.  Paths are numbered in byte
 order, and `valid` stands for the checks of single fields that both programs make alike.
 */
module Bundle {
  import opened Options
  import opened SortedListing
  import opened StableSort

  datatype Kind = SqlcipherFeasibility | Gate1Decision | ConformancePreCanary | Canary24h

  const ENVELOPE := 0                 // artifact-envelope.json
  const MANIFEST := 1                 // bundle-manifest.json
  const CONFORMANCE_REPORT := 2       // payload/conformance-pre-canary.json
  const GATE1_RECORD := 3             // payload/gate1-decision.json
  const MACOS_FEASIBILITY := 4        // payload/macos/sqlcipher-feasibility.json
  const ROLLOUT_EVIDENCE := 5         // payload/rollout-evidence.json
  const FEASIBILITY := 6              // payload/sqlcipher-feasibility.json
  const UBUNTU_RECEIPT := 7           // payload/ubuntu/import-receipt.json
  const VECTOR_VALIDATION := 8        // payload/vector-validation.json

  function PayloadPaths(kind: Kind): seq<nat> {
    match kind
    case SqlcipherFeasibility => [FEASIBILITY]
    case Gate1Decision => [GATE1_RECORD, MACOS_FEASIBILITY, UBUNTU_RECEIPT, VECTOR_VALIDATION]
    case ConformancePreCanary => [CONFORMANCE_REPORT]
    case Canary24h => [ROLLOUT_EVIDENCE]
  }

  datatype Bytes = Encoded(doc: Document) | Junk(n: nat)

  datatype Document = Manifest(entries: seq<Entry>) | Envelope(env: Env) | Other(n: nat)

  datatype Digest = Hash(bytes: Bytes)

  datatype Entry = Entry(path: nat, sha: Digest, size: nat)

  datatype Name = NoName | Name(kind: Kind, run: nat, attempt: nat, digest: Digest)

  datatype Fields = Fields(repository: string, provenance: string, run: nat, attempt: nat, platform: string,
                           producedAt: string)

  datatype Env = Env(kind: Kind, fields: Fields, name: Name, paths: seq<nat>, shas: seq<Digest>, bundle: Option<Digest>)

  type Sizes = Bytes -> nat

  function EntryPath(e: Entry): nat {
    e.path
  }

  // -------------------------------------------------------------------- building

  function Template(kind: Kind, fields: Fields, payloads: map<nat, Bytes>): Env
    requires forall p :: p in PayloadPaths(kind) ==> p in payloads
  {
    var paths := PayloadPaths(kind);
    Env(kind, fields, NoName, paths,
        seq(|paths|, i requires 0 <= i < |paths| && paths[i] in payloads => Hash(payloads[paths[i]])), None)
  }

  function EntryFor(size: Sizes, path: nat, bytes: Bytes): Entry {
    Entry(path, Hash(bytes), size(bytes))
  }

  function PayloadEntries(size: Sizes, paths: seq<nat>, payloads: map<nat, Bytes>): seq<Entry>
    requires forall p :: p in paths ==> p in payloads
  {
    seq(|paths|, i requires 0 <= i < |paths| && paths[i] in payloads => EntryFor(size, paths[i], payloads[paths[i]]))
  }

  function Entries(size: Sizes, kind: Kind, fields: Fields, payloads: map<nat, Bytes>): seq<Entry>
    requires forall p :: p in PayloadPaths(kind) ==> p in payloads
  {
    Sort(EntryPath, [EntryFor(size, ENVELOPE, Encoded(Envelope(Template(kind, fields, payloads))))] +
                    PayloadEntries(size, PayloadPaths(kind), payloads))
  }

  datatype Built = Built(env: Env, manifest: Bytes, name: Name)

  function BuiltFrom(size: Sizes, kind: Kind, fields: Fields, payloads: map<nat, Bytes>): Built
    requires forall p :: p in PayloadPaths(kind) ==> p in payloads
  {
    var manifest := Encoded(Manifest(Entries(size, kind, fields, payloads)));
    var name := Name(kind, fields.run, fields.attempt, Hash(manifest));
    Built(Template(kind, fields, payloads).(name := name, bundle := Some(Hash(manifest))), manifest, name)
  }

  /** The builder: the names must be the kind's paths in some order, each with a file. */
  method BuildBundle(size: Sizes, valid: Fields -> bool, kind: Kind, names: seq<nat>, fields: Fields,
                     input: map<nat, Bytes>)
    returns (r: Option<Built>)
    ensures r.Some? <==> (valid(fields) && Sort(Same, names) == PayloadPaths(kind) &&
                          forall p :: p in PayloadPaths(kind) ==> p in input)
    ensures r.Some? ==> r.value == BuiltFrom(size, kind, fields, input)
  {
    if !valid(fields) || Sort(Same, names) != PayloadPaths(kind) { return None; }
    var paths := PayloadPaths(kind);
    for i := 0 to |paths|
      invariant forall k :: 0 <= k < i ==> paths[k] in input
    {
      if paths[i] !in input { return None; }
    }
    var template := Template(kind, fields, input);
    var entries := [EntryFor(size, ENVELOPE, Encoded(Envelope(template)))] + PayloadEntries(size, paths, input);
    var manifest := Encoded(Manifest(Sort(EntryPath, entries)));
    var name := Name(kind, fields.run, fields.attempt, Hash(manifest));
    r := Some(Built(template.(name := name, bundle := Some(Hash(manifest))), manifest, name));
  }

  function Same(n: nat): nat {
    n
  }

  /** The files of the archive a bundle is written to. */
  function ArchiveOf(b: Built, payloads: map<nat, Bytes>): map<nat, Bytes> {
    map p | p in {ENVELOPE, MANIFEST} + (set q | q in PayloadPaths(b.env.kind) && q in payloads) ::
      if p == ENVELOPE then Encoded(Envelope(b.env)) else if p == MANIFEST then b.manifest else payloads[p]
  }

  // ------------------------------------------------------------------- importing

  datatype Refusal =
    | MissingFile | BadManifest | BadEnvelope | WrongOrder | WrongFileSet | WrongProjection | WrongIdentity
    | BadPayload | WrongTuple

  function Projected(env: Env): Bytes {
    Encoded(Envelope(env.(name := NoName, bundle := None)))
  }

  ghost predicate EnvelopeOk(valid: Fields -> bool, env: Env) {
    && valid(env.fields) && env.paths == PayloadPaths(env.kind) && |env.shas| == |env.paths| && env.bundle.Some?
  }

  function Paths(entries: seq<Entry>): seq<nat> {
    seq(|entries|, i requires 0 <= i < |entries| => entries[i].path)
  }

  /** The files an envelope calls for, apart from the manifest. */
  function FilesOf(kind: Kind): set<nat> {
    {ENVELOPE} + set p | p in PayloadPaths(kind)
  }

  ghost predicate EntryOk(size: Sizes, files: map<nat, Bytes>, env: Env, e: Entry) {
    && e.path in files
    && (if e.path == ENVELOPE then e == EntryFor(size, ENVELOPE, Projected(env))
        else e == EntryFor(size, e.path, files[e.path]))
  }

  ghost predicate PayloadOk(files: map<nat, Bytes>, env: Env, i: nat)
    requires i < |env.paths| && |env.shas| == |env.paths|
  {
    env.paths[i] in files && env.shas[i] == Hash(files[env.paths[i]]) && files[env.paths[i]].Encoded?
  }

  /** The archives the importer is meant to accept. */
  ghost predicate Importable(size: Sizes, valid: Fields -> bool, archive: Name, files: map<nat, Bytes>) {
    && MANIFEST in files && files[MANIFEST].Encoded? && files[MANIFEST].doc.Manifest?
    && ENVELOPE in files && files[ENVELOPE].Encoded? && files[ENVELOPE].doc.Envelope?
    && var entries, env := files[MANIFEST].doc.entries, files[ENVELOPE].doc.env;
    && EnvelopeOk(valid, env)
    && Lists(Paths(entries), FilesOf(env.kind))
    && files.Keys == FilesOf(env.kind) + {MANIFEST}
    && (forall e :: e in entries ==> EntryOk(size, files, env, e))
    && env.bundle == Some(Hash(files[MANIFEST])) && env.name == archive
    && archive == Name(env.kind, env.fields.run, env.fields.attempt, Hash(files[MANIFEST]))
    && (forall i :: 0 <= i < |env.paths| ==> PayloadOk(files, env, i))
  }

  /** The digests a recipient compares. */
  datatype Receipt = Receipt(kind: Kind, fields: Fields, name: Name, bundle: Digest, paths: seq<nat>, shas: seq<Digest>)

  /** The manifest's entries by path; none if a path comes twice. */
  method ByPath(entries: seq<Entry>) returns (r: Option<map<nat, Entry>>)
    ensures r.None? ==> !Increasing(Paths(entries))
    ensures r.Some? ==> forall p :: p in r.value <==> p in Paths(entries)
    ensures r.Some? ==> forall e :: e in entries ==> e.path in r.value && r.value[e.path] == e
  {
    var byPath: map<nat, Entry> := map[];
    for i := 0 to |entries|
      invariant forall p :: p in byPath <==> exists k :: 0 <= k < i && entries[k].path == p
      invariant forall k :: 0 <= k < i ==> byPath[entries[k].path] == entries[k]
    {
      var e := entries[i];
      if e.path in byPath {
        ghost var k :| 0 <= k < i && entries[k].path == e.path;
        assert Paths(entries)[k] == Paths(entries)[i];
        return None;
      }
      byPath := byPath[e.path := e];
    }
    forall p
      ensures p in byPath <==> p in Paths(entries)
    {
      if p in byPath {
        var k :| 0 <= k < |entries| && entries[k].path == p;
        assert Paths(entries)[k] == p;
      }
      if p in Paths(entries) {
        var k :| 0 <= k < |entries| && Paths(entries)[k] == p;
        assert entries[k].path == p;
      }
    }
    r := Some(byPath);
  }

  /** The manifest lists exactly the files that are called for, in order. */
  method CheckListing(entries: seq<Entry>, expected: set<nat>) returns (r: Option<map<nat, Entry>>)
    ensures r.Some? <==> Lists(Paths(entries), expected)
    ensures r.Some? ==> r.value.Keys == expected &&
                          forall e :: e in entries ==> e.path in r.value && r.value[e.path] == e
  {
    r := ByPath(entries);
    if r.None? { return; }
    var sorted := SortSet(r.value.Keys);
    if Lists(Paths(entries), expected) {
      assert expected == r.value.Keys;
      OneListing(sorted, Paths(entries), expected);
    }
    if Paths(entries) != sorted || r.value.Keys != expected { return None; }
  }

  /** The loop over the payloads. */
  method CheckPayloads(size: Sizes, files: map<nat, Bytes>, byPath: map<nat, Entry>, env: Env) returns (ok: bool)
    requires |env.shas| == |env.paths| && forall p :: p in env.paths ==> p in files && p in byPath
    ensures ok <==> forall i :: 0 <= i < |env.paths| ==>
              PayloadOk(files, env, i) && EntryMatches(size, files, byPath, env.paths[i])
  {
    for i := 0 to |env.paths|
      invariant forall k :: 0 <= k < i ==> PayloadOk(files, env, k) && EntryMatches(size, files, byPath, env.paths[k])
    {
      var raw, entry := files[env.paths[i]], byPath[env.paths[i]];
      if Hash(raw) != env.shas[i] || entry.sha != env.shas[i] || entry.size != size(raw) || raw.Junk? {
        assert !(PayloadOk(files, env, i) && EntryMatches(size, files, byPath, env.paths[i]));
        return false;
      }
    }
    ok := true;
  }

  /** The receipt of an envelope does not say when the bundle was made. */
  function ReceiptOf(env: Env, digest: Digest): Receipt {
    Receipt(env.kind, env.fields.(producedAt := ""), env.name, digest, env.paths, env.shas)
  }

  /** The importer; a caller may say what receipt to expect. */
  method ImportBundle(size: Sizes, valid: Fields -> bool, archive: Name, files: map<nat, Bytes>,
                      expected: Option<Receipt>)
    returns (r: Result<Receipt, Refusal>)
    ensures r.Ok? <==> Importable(size, valid, archive, files) &&
                       (expected.Some? ==> expected.value == ReceiptOf(files[ENVELOPE].doc.env, Hash(files[MANIFEST])))
    ensures r.Ok? ==> r.value == ReceiptOf(files[ENVELOPE].doc.env, Hash(files[MANIFEST]))
  {
    if MANIFEST !in files || ENVELOPE !in files { return Err(MissingFile); }
    if files[MANIFEST].Junk? || !files[MANIFEST].doc.Manifest? { return Err(BadManifest); }
    var entries := files[MANIFEST].doc.entries;
    if files[ENVELOPE].Junk? || !files[ENVELOPE].doc.Envelope? { return Err(BadEnvelope); }
    var env := files[ENVELOPE].doc.env;
    if !valid(env.fields) || env.paths != PayloadPaths(env.kind) || |env.shas| != |env.paths| || env.bundle.None? {
      return Err(BadEnvelope);
    }
    var byPath := CheckListing(entries, FilesOf(env.kind));
    if byPath.None? { return Err(WrongOrder); }
    if files.Keys != FilesOf(env.kind) + {MANIFEST} { return Err(WrongFileSet); }
    assert forall e :: e in entries ==> e.path in byPath.value && byPath.value[e.path] == e;
    EntriesOfListing(size, files, env, entries, byPath.value);
    hide EntryOk, EnvelopeOk, Lists, PayloadOk;
    if byPath.value[ENVELOPE] != EntryFor(size, ENVELOPE, Projected(env)) { return Err(WrongProjection); }
    var digest := Hash(files[MANIFEST]);
    if env.bundle != Some(digest) || env.name != Name(env.kind, env.fields.run, env.fields.attempt, digest) ||
       archive != env.name {
      return Err(WrongIdentity);
    }
    var ok := CheckPayloads(size, files, byPath.value, env);
    if !ok { return Err(BadPayload); }
    var receipt := ReceiptOf(env, digest);
    if expected.Some? && expected.value != receipt { return Err(WrongTuple); }
    r := Ok(receipt);
  }

  /** What the importer checks of an entry. */
  ghost predicate EntryMatches(size: Sizes, files: map<nat, Bytes>, byPath: map<nat, Entry>, p: nat) {
    p in byPath && p in files && byPath[p].sha == Hash(files[p]) && byPath[p].size == size(files[p])
  }

  lemma ListingHasAll(entries: seq<Entry>, byPath: map<nat, Entry>, p: nat)
    requires Lists(Paths(entries), byPath.Keys) && p in byPath
    requires forall e :: e in entries ==> e.path in byPath && byPath[e.path] == e
    ensures byPath[p] in entries && byPath[p].path == p
  {
    assert p in Paths(entries);
    var k :| 0 <= k < |entries| && Paths(entries)[k] == p;
    assert entries[k] in entries;
  }

  lemma OneEntry(size: Sizes, files: map<nat, Bytes>, env: Env, byPath: map<nat, Entry>, p: nat)
    requires p in byPath && byPath[p].path == p && p in files
    ensures EntryOk(size, files, env, byPath[p]) <==>
            if p == ENVELOPE then byPath[p] == EntryFor(size, ENVELOPE, Projected(env))
            else EntryMatches(size, files, byPath, p)
  {
  }

  /** The entries are right exactly when the one of the envelope and those of the payloads are. */
  lemma EntriesOfListing(size: Sizes, files: map<nat, Bytes>, env: Env, entries: seq<Entry>, byPath: map<nat, Entry>)
    requires Lists(Paths(entries), FilesOf(env.kind)) && byPath.Keys == FilesOf(env.kind)
    requires forall e :: e in entries ==> e.path in byPath && byPath[e.path] == e
    requires env.paths == PayloadPaths(env.kind) && files.Keys == FilesOf(env.kind) + {MANIFEST}
    ensures ENVELOPE in byPath && forall p :: p in env.paths ==> p in files && p in byPath
    ensures (forall e :: e in entries ==> EntryOk(size, files, env, e)) <==>
            byPath[ENVELOPE] == EntryFor(size, ENVELOPE, Projected(env)) &&
            forall i :: 0 <= i < |env.paths| ==> EntryMatches(size, files, byPath, env.paths[i])
  {
    NoEnvelopeAmongPayloads(env.kind);
    assert forall p :: p in byPath ==> p in files && (p == ENVELOPE || p in env.paths);
    forall p | p in byPath
      ensures byPath[p] in entries
      ensures EntryOk(size, files, env, byPath[p]) <==>
              if p == ENVELOPE then byPath[p] == EntryFor(size, ENVELOPE, Projected(env))
              else EntryMatches(size, files, byPath, p)
    {
      ListingHasAll(entries, byPath, p);
      OneEntry(size, files, env, byPath, p);
    }
    forall i | 0 <= i < |env.paths|
      ensures env.paths[i] in byPath && env.paths[i] != ENVELOPE
    {
      assert env.paths[i] in env.paths;
    }
    hide EntryOk, EntryMatches, Lists, PayloadPaths, FilesOf;
  }

  lemma NoEnvelopeAmongPayloads(kind: Kind)
    ensures ENVELOPE !in PayloadPaths(kind) && MANIFEST !in PayloadPaths(kind)
    ensures Increasing(PayloadPaths(kind))
  {
  }

  // ------------------------------------------------------------- both describe one set

  lemma PayloadListing(kind: Kind)
    ensures Lists([ENVELOPE] + PayloadPaths(kind), FilesOf(kind))
  {
    NoEnvelopeAmongPayloads(kind);
  }

  /** The builder's entries need no sorting: the paths of a kind are given in order. */
  lemma EntriesInOrder(size: Sizes, kind: Kind, fields: Fields, payloads: map<nat, Bytes>)
    requires forall p :: p in PayloadPaths(kind) ==> p in payloads
    ensures Entries(size, kind, fields, payloads) ==
            [EntryFor(size, ENVELOPE, Encoded(Envelope(Template(kind, fields, payloads))))] +
            PayloadEntries(size, PayloadPaths(kind), payloads)
    ensures Paths(Entries(size, kind, fields, payloads)) == [ENVELOPE] + PayloadPaths(kind)
  {
    var raw := [EntryFor(size, ENVELOPE, Encoded(Envelope(Template(kind, fields, payloads))))] +
               PayloadEntries(size, PayloadPaths(kind), payloads);
    assert Paths(raw) == [ENVELOPE] + PayloadPaths(kind);
    PayloadListing(kind);
    forall i, j | 0 <= i < j < |raw|
      ensures EntryPath(raw[i]) <= EntryPath(raw[j])
    {
      assert Paths(raw)[i] < Paths(raw)[j];
    }
    hide Template, PayloadEntries, PayloadPaths;
    SortOfSorted(EntryPath, raw);
  }

  /** The archive of a bundle, in terms of what it was built from. */
  lemma BuiltFiles(size: Sizes, kind: Kind, fields: Fields, payloads: map<nat, Bytes>)
    requires forall p :: p in PayloadPaths(kind) ==> p in payloads
    ensures var b := BuiltFrom(size, kind, fields, payloads);
            var files := ArchiveOf(b, payloads);
            && files.Keys == FilesOf(kind) + {MANIFEST}
            && files[ENVELOPE] == Encoded(Envelope(b.env)) && files[MANIFEST] == b.manifest
            && (forall p :: p in PayloadPaths(kind) ==> files[p] == payloads[p])
            && Projected(b.env) == Encoded(Envelope(Template(kind, fields, payloads)))
  {
    NoEnvelopeAmongPayloads(kind);
    hide Entries, Increasing;
  }

  lemma BuiltEntriesOk(size: Sizes, kind: Kind, fields: Fields, payloads: map<nat, Bytes>, e: Entry)
    requires forall p :: p in PayloadPaths(kind) ==> p in payloads
    requires e in Entries(size, kind, fields, payloads)
    ensures var b := BuiltFrom(size, kind, fields, payloads);
            EntryOk(size, ArchiveOf(b, payloads), b.env, e)
  {
    var paths := PayloadPaths(kind);
    BuiltFiles(size, kind, fields, payloads);
    EntriesInOrder(size, kind, fields, payloads);
    NoEnvelopeAmongPayloads(kind);
    var entries := Entries(size, kind, fields, payloads);
    hide Entries, ArchiveOf, PayloadPaths, Template, BuiltFrom, Projected;
    var k :| 0 <= k < |entries| && entries[k] == e;
    if k > 0 {
      assert e == EntryFor(size, paths[k - 1], payloads[paths[k - 1]]);
      assert paths[k - 1] in paths;
    }
  }

  lemma BuiltPayloadsOk(size: Sizes, kind: Kind, fields: Fields, payloads: map<nat, Bytes>)
    requires forall p :: p in PayloadPaths(kind) ==> p in payloads
    ensures var b := BuiltFrom(size, kind, fields, payloads);
            b.env.paths == PayloadPaths(kind) && |b.env.shas| == |b.env.paths| &&
            ((forall i :: 0 <= i < |b.env.paths| ==> PayloadOk(ArchiveOf(b, payloads), b.env, i)) <==>
             forall p :: p in PayloadPaths(kind) ==> payloads[p].Encoded?)
  {
    var b := BuiltFrom(size, kind, fields, payloads);
    var paths := PayloadPaths(kind);
    BuiltFiles(size, kind, fields, payloads);
    hide Entries, ArchiveOf, PayloadPaths, Projected;
    forall i | 0 <= i < |paths|
      ensures PayloadOk(ArchiveOf(b, payloads), b.env, i) <==> payloads[paths[i]].Encoded?
    {
      assert paths[i] in paths;
    }
    hide PayloadOk;
    if (forall i :: 0 <= i < |paths| ==> PayloadOk(ArchiveOf(b, payloads), b.env, i)) {
      forall p | p in paths
        ensures payloads[p].Encoded?
      {
        var i :| 0 <= i < |paths| && paths[i] == p;
      }
    }
  }

  /** What the builder makes is accepted exactly when every payload is a canonical document,
      which the builder does not check. */
  lemma BuiltIsImportable(size: Sizes, valid: Fields -> bool, kind: Kind, fields: Fields, payloads: map<nat, Bytes>)
    requires valid(fields) && forall p :: p in PayloadPaths(kind) ==> p in payloads
    ensures var b := BuiltFrom(size, kind, fields, payloads);
            Importable(size, valid, b.name, ArchiveOf(b, payloads)) <==>
            forall p :: p in PayloadPaths(kind) ==> payloads[p].Encoded?
  {
    BuiltFiles(size, kind, fields, payloads);
    EntriesInOrder(size, kind, fields, payloads);
    PayloadListing(kind);
    BuiltPayloadsOk(size, kind, fields, payloads);
    forall e | e in Entries(size, kind, fields, payloads)
      ensures var b := BuiltFrom(size, kind, fields, payloads);
              EntryOk(size, ArchiveOf(b, payloads), b.env, e)
    {
      BuiltEntriesOk(size, kind, fields, payloads, e);
    }
    hide PayloadOk, EntryOk, Entries, Lists, PayloadPaths, FilesOf, Template, ArchiveOf, Projected, Paths;
  }

  /** Whatever the importer accepts is, file by file, what the builder makes of the
      envelope's own fields and the archive's payloads. */
  lemma ImportableIsBuilt(size: Sizes, valid: Fields -> bool, archive: Name, files: map<nat, Bytes>)
    requires Importable(size, valid, archive, files)
    ensures var env := files[ENVELOPE].doc.env;
            && (forall p :: p in PayloadPaths(env.kind) ==> p in files)
            && var b := BuiltFrom(size, env.kind, env.fields, files);
               archive == b.name && files == ArchiveOf(b, files)
  {
    var entries, env := files[MANIFEST].doc.entries, files[ENVELOPE].doc.env;
    TemplateIsProjected(size, valid, archive, files);
    EntriesAreBuilt(size, valid, archive, files);
    var b := BuiltFrom(size, env.kind, env.fields, files);
    assert b.manifest == files[MANIFEST];
    assert b.env == env;
    NoEnvelopeAmongPayloads(env.kind);
    hide Template, Entries, EntryOk, Lists, PayloadOk;
    assert files == ArchiveOf(b, files);
  }

  lemma TemplateIsProjected(size: Sizes, valid: Fields -> bool, archive: Name, files: map<nat, Bytes>)
    requires Importable(size, valid, archive, files)
    ensures var env := files[ENVELOPE].doc.env;
            && (forall p :: p in PayloadPaths(env.kind) ==> p in files)
            && Template(env.kind, env.fields, files) == env.(name := NoName, bundle := None)
  {
    var env := files[ENVELOPE].doc.env;
    forall i | 0 <= i < |env.paths|
      ensures env.paths[i] in files && env.shas[i] == Hash(files[env.paths[i]])
    {
      assert PayloadOk(files, env, i);
    }
    assert Template(env.kind, env.fields, files).shas == env.shas;
  }

  lemma EntriesAreBuilt(size: Sizes, valid: Fields -> bool, archive: Name, files: map<nat, Bytes>)
    requires Importable(size, valid, archive, files)
    ensures var env := files[ENVELOPE].doc.env;
            && (forall p :: p in PayloadPaths(env.kind) ==> p in files)
            && files[MANIFEST].doc.entries == Entries(size, env.kind, env.fields, files)
  {
    var entries, env := files[MANIFEST].doc.entries, files[ENVELOPE].doc.env;
    TemplateIsProjected(size, valid, archive, files);
    EntriesInOrder(size, env.kind, env.fields, files);
    PayloadListing(env.kind);
    NoEnvelopeAmongPayloads(env.kind);
    var built := Entries(size, env.kind, env.fields, files);
    OneListing(Paths(entries), Paths(built), FilesOf(env.kind));
    assert |entries| == |Paths(entries)| == |Paths(built)| == |built|;
    forall k | 0 <= k < |entries|
      ensures entries[k] == built[k]
    {
      assert entries[k].path == Paths(entries)[k] == Paths(built)[k] == ([ENVELOPE] + PayloadPaths(env.kind))[k];
      assert entries[k] in entries && EntryOk(size, files, env, entries[k]);
      if k > 0 {
        assert built[k] == EntryFor(size, PayloadPaths(env.kind)[k - 1], files[PayloadPaths(env.kind)[k - 1]]);
        assert PayloadPaths(env.kind)[k - 1] in PayloadPaths(env.kind);
      }
    }
  }
}
