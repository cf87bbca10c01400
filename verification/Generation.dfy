/**
 Building a signed generation and verifying one.  A hash is modelled by what it is computed
 from, a signature by its key and message; a verifier knows the keys that may sign.
 */
module Generation {
  import opened Options
  import opened StableSort
  import opened Snapshot

  /** How a document is written and what it says beside the fields that are read: keys that
      nobody asks for, spacing, spelling.  The builder writes canonical text and no more. */
  type Extra = nat

  const PLAIN: Extra := 0

  /** The bytes of a snapshot file: records, or something that does not parse. */
  datatype SnapshotFile = Records(claims: seq<Claim>, extra: Extra) | Garbage(bytes: nat)

  datatype CitationFile = Index(index: Citations) | OtherIndex(bytes: nat)

  /** `engine` stands for the versions of the programs that made the generation. */
  datatype Descriptor = Descriptor(
    parent: Option<GenerationId>,
    source: nat,
    setRoot: nat,
    wikiRoot: map<string, Page>,
    citation: CitationFile,
    snapshot: SnapshotFile,
    profile: nat,
    engine: nat,
    binding: nat,
    extra: Extra)

  datatype GenerationId = Hash(descriptor: Descriptor)

  datatype Signature = Signature(key: nat, message: GenerationId)

  datatype Manifest = Manifest(descriptor: Descriptor, generation: GenerationId, signer: nat, signature: Signature,
                               extra: Extra)

  /** The bytes of an outbox file: the event that the generation is ready for the index, or others. */
  datatype OutboxFile = ReadyForIndex(generation: GenerationId) | OtherEvent(bytes: nat)

  /** A commit's files; `stray` are the paths of any other kind. */
  datatype Commit = Commit(
    pages: map<string, Page>,
    citation: Option<CitationFile>,
    snapshot: Option<SnapshotFile>,
    manifests: map<GenerationId, Manifest>,
    outbox: map<GenerationId, OutboxFile>,
    stray: set<string>)

  /** What a generation is built from, beside its claims. */
  datatype Origin = Origin(
    parent: Option<GenerationId>, source: nat, setRoot: nat, profile: nat, engine: nat, binding: nat)

  function DescriptorFor(nfc: Normalizer, accepted: seq<Claim>, o: Origin): Descriptor {
    Descriptor(o.parent, o.source, o.setRoot, Render(accepted), Index(Cite(nfc, accepted)),
               Records(Snap(nfc, accepted), PLAIN), o.profile, o.engine, o.binding, PLAIN)
  }

  function OriginOf(d: Descriptor): Origin {
    Origin(d.parent, d.source, d.setRoot, d.profile, d.engine, d.binding)
  }

  function CommitFor(d: Descriptor, key: nat): Commit {
    var g := Hash(d);
    Commit(d.wikiRoot, Some(d.citation), Some(d.snapshot), map[g := Manifest(d, g, key, Signature(key, g), PLAIN)],
           map[g := ReadyForIndex(g)], {})
  }

  /** A stored commit: its files and the commit it was built on. */
  datatype Stored = Stored(files: Commit, parent: Option<Stored>)

  /** The refs that keep generations reachable. */
  type Refs = map<GenerationId, Stored>

  datatype BuildError = ParentNotFound | RefTaken

  /** The parent must be stored, and a generation's ref is made once: the same commit is
      accepted again, another one is refused. */
  method BuildCandidate(nfc: Normalizer, accepted: seq<Claim>, o: Origin, key: nat, refs: Refs)
    returns (r: Result<GenerationId, BuildError>, after: Refs)
    ensures var d := DescriptorFor(nfc, accepted, o);
            if o.parent.Some? && o.parent.value !in refs then r == Err(ParentNotFound) && after == refs
            else
              var stored := Stored(CommitFor(d, key), if o.parent.Some? then Some(refs[o.parent.value]) else None);
              if Hash(d) in refs && refs[Hash(d)] != stored then r == Err(RefTaken) && after == refs
              else r == Ok(Hash(d)) && after == refs[Hash(d) := stored]
    ensures forall g :: g in refs ==> g in after && after[g] == refs[g]
  {
    var pages := RenderPages(accepted);
    var citation := BuildCitationIndex(nfc, accepted);
    var snapshot := Records(Snap(nfc, accepted), PLAIN);
    var descriptor := Descriptor(o.parent, o.source, o.setRoot, pages, Index(citation), snapshot, o.profile, o.engine,
                                 o.binding, PLAIN);
    var generation := Hash(descriptor);
    var manifest := Manifest(descriptor, generation, key, Signature(key, generation), PLAIN);
    var files := Commit(pages, Some(Index(citation)), Some(snapshot), map[generation := manifest],
                        map[generation := ReadyForIndex(generation)], {});
    after := refs;
    var parentCommit: Option<Stored> := None;
    if o.parent.Some? {
      if o.parent.value !in refs { return Err(ParentNotFound), refs; }
      parentCommit := Some(refs[o.parent.value]);
    }
    var stored := Stored(files, parentCommit);
    if generation !in refs {
      after := refs[generation := stored];
    } else if refs[generation] != stored {
      return Err(RefTaken), refs;
    } else {
      assert refs == refs[generation := stored];
    }
    r := Ok(generation);
  }

  /** Records parse when every one is bound to its identity. */
  method ParseSnapshot(nfc: Normalizer, f: SnapshotFile) returns (claims: Option<seq<Claim>>)
    ensures claims == if f.Records? && AllWellFormed(nfc, f.claims) then Some(f.claims) else None
  {
    if f.Garbage? { return None; }
    for i := 0 to |f.claims|
      invariant AllWellFormed(nfc, f.claims[..i])
    {
      var c := f.claims[i];
      if c.id != IdOf(nfc, c.identity) || c.assertionClaim != c.id || c.evidence !in c.evidenceIds {
        assert c in f.claims && !WellFormed(nfc, c);
        return None;
      }
      assert forall x :: x in f.claims[..i + 1] <==> x in f.claims[..i] || x == c;
    }
    assert f.claims[..|f.claims|] == f.claims;
    claims := Some(f.claims);
  }

  /** What an accepted commit is: the signed descriptor's own pages, index and snapshot, no
      other file, and pages and index that follow from the snapshot.  The outbox file only has
      to be there. */
  ghost predicate Authentic(nfc: Normalizer, keys: set<nat>, commit: Commit, g: GenerationId) {
    && g in commit.manifests
    && var m := commit.manifests[g];
    && m.generation == g && Hash(m.descriptor) == g
    && m.signer in keys && m.signature == Signature(m.signer, g)
    && commit.manifests.Keys == {g} && commit.outbox.Keys == {g} && commit.stray == {}
    && commit.pages == g.descriptor.wikiRoot
    && commit.citation == Some(g.descriptor.citation) && commit.snapshot == Some(g.descriptor.snapshot)
    && commit.snapshot.value.Records? && AllWellFormed(nfc, commit.snapshot.value.claims)
    && commit.pages == Render(commit.snapshot.value.claims)
    && commit.citation == Some(Index(Cite(nfc, commit.snapshot.value.claims)))
  }

  method VerifyManifest(nfc: Normalizer, keys: set<nat>, commit: Commit, g: GenerationId) returns (ok: bool)
    ensures ok <==> Authentic(nfc, keys, commit, g)
  {
    if g !in commit.manifests { return false; }
    var manifest := commit.manifests[g];
    if manifest.generation != g { return false; }
    var descriptor := manifest.descriptor;
    if Hash(descriptor) != g { return false; }
    if manifest.signer !in keys || manifest.signature != Signature(manifest.signer, g) { return false; }
    if commit.manifests.Keys != {g} || commit.outbox.Keys != {g} || commit.stray != {} { return false; }
    if commit.citation.None? || commit.snapshot.None? { return false; }
    if commit.pages != descriptor.wikiRoot { return false; }
    if commit.citation.value != descriptor.citation { return false; }
    if commit.snapshot.value != descriptor.snapshot { return false; }
    var reconstructed := ParseSnapshot(nfc, commit.snapshot.value);
    if reconstructed.None? { return false; }
    var pages := RenderPages(reconstructed.value);
    if pages != commit.pages { return false; }
    var citation := BuildCitationIndex(nfc, reconstructed.value);
    ok := commit.citation.value == Index(citation);
  }

  // ------------------------------------------------------------- completeness

  /** A built commit verifies exactly when its key is known, every claim is bound to its own
      identity, and the text that its pages show is normalized: pages are rendered from the
      text as it came, while the snapshot holds it normalized. */
  lemma BuiltIsAuthentic(nfc: Normalizer, keys: set<nat>, accepted: seq<Claim>, o: Origin, key: nat)
    requires Idempotent(nfc)
    ensures var d := DescriptorFor(nfc, accepted, o);
            Authentic(nfc, keys, CommitFor(d, key), Hash(d)) <==>
            key in keys && AllWellFormed(nfc, accepted) && ShownIsNormal(nfc, accepted)
  {
    SnapIsWellFormed(nfc, accepted);
    if AllWellFormed(nfc, accepted) {
      SnapRenders(nfc, accepted);
      RenderOfNorm(nfc, accepted);
    }
    hide Render, Cite, Snap, NormAll, AllWellFormed, ShownIsNormal, Idempotent;
  }

  ghost predicate Normalized(nfc: Normalizer, i: Identity) {
    NormIdentity(nfc, i) == i
  }

  /** One claim whose subject, predicate or object is not normalized is fatal: the generation
      can never be verified, so nothing can be published on top of it. */
  lemma UnnormalizedTextFails(nfc: Normalizer, keys: set<nat>, accepted: seq<Claim>, c: Claim, o: Origin, key: nat)
    requires Idempotent(nfc) && Determined(accepted)
    requires c in accepted && !(NormalSubject(nfc, c) && NormalRest(nfc, c))
    ensures var d := DescriptorFor(nfc, accepted, o);
            !Authentic(nfc, keys, CommitFor(d, key), Hash(d))
  {
    BuiltIsAuthentic(nfc, keys, accepted, o, key);
    ShownOfDetermined(nfc, accepted);
    hide Authentic, ShownIsNormal, Idempotent, Determined, NormalSubject, NormalRest;
  }

  // ---------------------------------------------------------------- soundness

  /** The records are as the builder writes them: in the order of assertion ids, normalized. */
  ghost predicate InOrder(nfc: Normalizer, claims: seq<Claim>) {
    Sorted(ClaimKey, claims) && forall c :: c in claims ==> Norm(nfc, c) == c
  }

  lemma SnapOfInOrder(nfc: Normalizer, claims: seq<Claim>)
    requires Idempotent(nfc)
    ensures Snap(nfc, claims) == claims <==> InOrder(nfc, claims)
  {
    if Snap(nfc, claims) == claims {
      SnapIsInOrder(nfc, claims);
    }
    if InOrder(nfc, claims) {
      SortOfSorted(ClaimKey, claims);
      NormAllMembers(nfc, claims);
      assert forall i :: 0 <= i < |claims| ==> claims[i] in claims;
      hide Sort, Sorted, NormAll;
      assert NormAll(nfc, claims) == claims;
    }
  }

  lemma SnapIsInOrder(nfc: Normalizer, claims: seq<Claim>)
    requires Idempotent(nfc)
    ensures InOrder(nfc, Snap(nfc, claims))
  {
    var sorted, snap := Sort(ClaimKey, claims), Snap(nfc, claims);
    SortIsSorted(ClaimKey, claims);
    NormAllMembers(nfc, sorted);
    hide NormAll, Sort;
    forall i | 0 <= i < |snap|
      ensures ClaimKey(snap[i]) == ClaimKey(sorted[i]) && Norm(nfc, snap[i]) == snap[i]
    {
      NormTwice(nfc, sorted[i]);
    }
  }

  lemma NormTwice(nfc: Normalizer, c: Claim)
    requires Idempotent(nfc)
    ensures Norm(nfc, Norm(nfc, c)) == Norm(nfc, c)
  {
  }

  /** The one commit with descriptor `d` whose manifest file is `m` and whose outbox file is `e`. */
  function CommitWith(d: Descriptor, m: Manifest, e: OutboxFile): Commit {
    Commit(d.wikiRoot, Some(d.citation), Some(d.snapshot), map[Hash(d) := m], map[Hash(d) := e], {})
  }

  /** An accepted commit follows from its id but for three things: who signed, what the manifest
      file says beside the fields that are read, and the bytes of the outbox file. */
  lemma AcceptedIsSigned(nfc: Normalizer, keys: set<nat>, commit: Commit, g: GenerationId)
    requires Authentic(nfc, keys, commit, g)
    ensures var d, claims, m := g.descriptor, commit.snapshot.value.claims, commit.manifests[g];
            && m == Manifest(d, g, m.signer, Signature(m.signer, g), m.extra)
            && commit == CommitWith(d, m, commit.outbox[g])
            && d.wikiRoot == Render(claims) && d.citation == Index(Cite(nfc, claims))
            && d.snapshot == Records(claims, commit.snapshot.value.extra)
  {
    hide Render, Cite, AllWellFormed;
    assert commit.manifests == map[g := commit.manifests[g]];
    assert commit.outbox == map[g := commit.outbox[g]];
  }

  /** Exactly these things are free: beside one accepted commit of an id, exactly those are
      accepted that differ from it in no more, and whose signer is known. */
  lemma AcceptedExactly(nfc: Normalizer, keys: set<nat>, one: Commit, g: GenerationId, two: Commit)
    requires Authentic(nfc, keys, one, g)
    ensures Authentic(nfc, keys, two, g) <==>
            && g in two.manifests && g in two.outbox
            && var m := two.manifests[g];
            && m.signer in keys && m == Manifest(g.descriptor, g, m.signer, Signature(m.signer, g), m.extra)
            && two == CommitWith(g.descriptor, m, two.outbox[g])
  {
    AcceptedIsSigned(nfc, keys, one, g);
    if Authentic(nfc, keys, two, g) {
      AcceptedIsSigned(nfc, keys, two, g);
    }
    hide Render, Cite, AllWellFormed;
  }

  /** Two accepted commits of one id are the same when the same key signed, the manifests say
      the same, and the outbox files are the same. */
  lemma AcceptedIsDetermined(nfc: Normalizer, keys: set<nat>, one: Commit, two: Commit, g: GenerationId)
    requires Authentic(nfc, keys, one, g) && Authentic(nfc, keys, two, g)
    ensures two == one.(manifests := two.manifests, outbox := two.outbox)
    ensures one == two <==> && one.manifests[g].signer == two.manifests[g].signer
                            && one.manifests[g].extra == two.manifests[g].extra
                            && one.outbox[g] == two.outbox[g]
  {
    AcceptedIsSigned(nfc, keys, one, g);
    AcceptedIsSigned(nfc, keys, two, g);
    hide Authentic, Render, Cite;
  }

  /** Carrying a manifest over to other files is noticed in every file but one: the bytes of the
      outbox file may be anything. */
  lemma TamperingIsNoticed(nfc: Normalizer, keys: set<nat>, one: Commit, g: GenerationId, two: Commit)
    requires Authentic(nfc, keys, one, g) && two.manifests == one.manifests
    ensures Authentic(nfc, keys, two, g) <==> two.outbox.Keys == {g} && two == one.(outbox := two.outbox)
  {
    AcceptedIsSigned(nfc, keys, one, g);
    AcceptedExactly(nfc, keys, one, g, two);
    hide Authentic, Render, Cite;
    assert two.outbox.Keys == {g} ==> two.outbox == map[g := two.outbox[g]];
  }

  /** The failing instance: whatever the outbox file is replaced by, the commit is accepted. */
  lemma OutboxIsNotRead(nfc: Normalizer, keys: set<nat>, one: Commit, g: GenerationId, other: OutboxFile)
    requires Authentic(nfc, keys, one, g) && other != one.outbox[g]
    ensures var two := one.(outbox := map[g := other]);
            two != one && two.manifests == one.manifests && Authentic(nfc, keys, two, g)
  {
    assert map[g := other][g] == other;
    TamperingIsNoticed(nfc, keys, one, g, one.(outbox := map[g := other]));
    hide Authentic;
  }

  /** Verifying is rebuilding: an accepted commit is, file by file and signature included, what
      the builder of engine `engine` makes of the claims in its snapshot, exactly if these are
      in order, it is the same engine, the outbox file is the builder's event, and no document
      says more than the builder writes.  The verifier asks for none of that; beyond the outbox
      and the manifest's extras only a key holder can sign the other kind. */
  lemma AcceptedIsRebuilt(nfc: Normalizer, keys: set<nat>, commit: Commit, g: GenerationId, engine: nat)
    requires Idempotent(nfc) && Authentic(nfc, keys, commit, g)
    ensures var d, snapshot, m := g.descriptor, commit.snapshot.value, commit.manifests[g];
            commit == CommitFor(DescriptorFor(nfc, snapshot.claims, OriginOf(d).(engine := engine)), m.signer) <==>
            && InOrder(nfc, snapshot.claims) && d.engine == engine && commit.outbox[g] == ReadyForIndex(g)
            && snapshot.extra == PLAIN && d.extra == PLAIN && m.extra == PLAIN
  {
    var d, snapshot := g.descriptor, commit.snapshot.value;
    var rebuilt := DescriptorFor(nfc, snapshot.claims, OriginOf(d).(engine := engine));
    SnapOfInOrder(nfc, snapshot.claims);
    AcceptedIsSigned(nfc, keys, commit, g);
    hide Authentic, Idempotent, Snap, Render, Cite, AllWellFormed, InOrder;
    assert rebuilt == d <==> Snap(nfc, snapshot.claims) == snapshot.claims && snapshot.extra == PLAIN &&
                             d.engine == engine && d.extra == PLAIN;
    SameCommit(commit, d, g, rebuilt);
  }

  lemma SameCommit(commit: Commit, d: Descriptor, g: GenerationId, rebuilt: Descriptor)
    requires g == Hash(d) && g in commit.manifests && g in commit.outbox
    requires var m := commit.manifests[g];
             m == Manifest(d, g, m.signer, Signature(m.signer, g), m.extra) &&
                 commit == CommitWith(d, m, commit.outbox[g])
    ensures commit == CommitFor(rebuilt, commit.manifests[g].signer) <==>
            rebuilt == d && commit.manifests[g].extra == PLAIN && commit.outbox[g] == ReadyForIndex(g)
  {
    if commit == CommitFor(rebuilt, commit.manifests[g].signer) {
      assert g in map[Hash(rebuilt) := ReadyForIndex(Hash(rebuilt))];
    }
  }

  // --------------------------------------------------------- order independence

  /** The generation id does not depend on the order in which the claims are given. */
  lemma IdForgetsOrder(nfc: Normalizer, s: seq<Claim>, t: seq<Claim>, o: Origin)
    requires multiset(s) == multiset(t) && KeyTells(ClaimKey, s)
    requires AllWellFormed(nfc, s) && forall c :: c in s ==> Normalized(nfc, c.identity)
    ensures DescriptorFor(nfc, s, o) == DescriptorFor(nfc, t, o)
  {
    SortForgetsOrder(ClaimKey, s, t);
    CiteOfSort(nfc, s);
    CiteOfSort(nfc, t);
    forall c
      ensures c in s <==> c in t
    {
      assert c in multiset(s) <==> c in multiset(t);
    }
    assert Determined(s) by {
      forall c | c in s
        ensures c.id == Hashed(c.identity)
      {
        assert WellFormed(nfc, c) && Normalized(nfc, c.identity);
      }
    }
    RenderForgetsOrder(s, t);
  }
}
