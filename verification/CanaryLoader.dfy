/**
 Finding the chain in a directory of checkpoint files.  The loader accepts exactly the
 directories that hold one unbroken chain from genesis, every file on it once.
 */
module CanaryLoader {
  import opened Options
  import opened CanaryChain

  datatype ChainError =
    | NoChain | BadFile(error: LoadError) | WrongName | DuplicateDigest | WrongBinding
    | GenesisChildren | Orphan | Fork | ScheduleGap | AttemptJump | ExtendsTerminal | Unreached

  // ------------------------------------------------------------------ indexing

  /** `byDigest` maps the digests of the first `n` files to their positions. */
  ghost predicate DigestsIndexed(files: seq<File>, n: nat, byDigest: map<Digest, nat>) {
    && n <= |files|
    && (forall k :: 0 <= k < n ==> Hash(files[k].body) in byDigest && byDigest[Hash(files[k].body)] == k)
    && (forall d :: d in byDigest ==> byDigest[d] < n && d == Hash(files[byDigest[d]].body))
  }

  /** `children` lists indexed digests whose checkpoints have prior `p`, none twice. */
  ghost predicate ChildrenOf(known: set<Digest>, p: Digest, children: seq<Digest>) {
    && children != []
    && (forall a :: 0 <= a < |children| ==> children[a] in known && children[a].Hash? && children[a].body.prior == p)
    && (forall a, b :: 0 <= a < b < |children| ==> children[a] != children[b])
  }

  /** `successors` lists every known digest under its prior. */
  ghost predicate SuccessorsIndexed(known: set<Digest>, successors: map<Digest, seq<Digest>>) {
    && (forall d :: d in known ==> d.Hash? && d.body.prior in successors && d in successors[d.body.prior])
    && (forall p :: p in successors ==> ChildrenOf(known, p, successors[p]))
  }

  function Children(successors: map<Digest, seq<Digest>>, p: Digest): seq<Digest> {
    if p in successors then successors[p] else []
  }

  function Enter(successors: map<Digest, seq<Digest>>, d: Digest): map<Digest, seq<Digest>>
    requires d.Hash?
  {
    successors[d.body.prior := Children(successors, d.body.prior) + [d]]
  }

  /** What the first loop knows after `n` files. */
  ghost predicate Indexed(files: seq<File>, n: nat, byDigest: map<Digest, nat>, successors: map<Digest, seq<Digest>>) {
    DigestsIndexed(files, n, byDigest) && SuccessorsIndexed(byDigest.Keys, successors)
  }

  /** The file is in order whatever its binding. */
  ghost predicate Named(f: File, duration: nat, interval: nat, now: real)
    requires interval > 0
  {
    FileOk(f, f.body.site, duration, interval) && f.body.lastObserved as real <= now
  }

  ghost predicate FileLoads(f: File, site: nat, duration: nat, interval: nat, now: real)
    requires interval > 0
  {
    Named(f, duration, interval, now) && f.body.site == site
  }

  /** The first `n` files load one by one, and no checkpoint twice. */
  ghost predicate FilesLoad(files: seq<File>, n: nat, site: nat, duration: nat, interval: nat, clock: nat -> real)
    requires interval > 0 && n <= |files|
  {
    && (forall k :: 0 <= k < n ==> FileLoads(files[k], site, duration, interval, clock(k)))
    && NoDuplicates(files, n)
  }

  method LoadNamed(f: File, duration: nat, interval: nat, now: real) returns (error: Option<ChainError>)
    requires interval > 0
    ensures error.None? <==> Named(f, duration, interval, now)
  {
    var bad := LoadCheckpoint(f, duration, interval, now, false);
    if bad.Some? { return Some(BadFile(bad.value)); }
    if f.nameIndex != f.body.nextIndex || f.nameDigest != f.digest { return Some(WrongName); }
    error := None;
  }

  /** The first loop. */
  method IndexFiles(files: seq<File>, site: nat, duration: nat, interval: nat, clock: nat -> real)
    returns (error: Option<ChainError>, byDigest: map<Digest, nat>, successors: map<Digest, seq<Digest>>)
    requires interval > 0
    ensures error.None? ==> Indexed(files, |files|, byDigest, successors)
    ensures error.None? <==> FilesLoad(files, |files|, site, duration, interval, clock)
  {
    byDigest, successors := map[], map[];
    for i := 0 to |files|
      invariant Indexed(files, i, byDigest, successors)
      invariant FilesLoad(files, i, site, duration, interval, clock)
    {
      var f := files[i];
      var bad := LoadNamed(f, duration, interval, clock(i));
      if bad.Some? {
        assert !FileLoads(files[i], site, duration, interval, clock(i));
        return bad, byDigest, successors;
      }
      assert f.digest == Hash(f.body);
      if f.digest in byDigest {
        assert files[byDigest[f.digest]].body == f.body;
        return Some(DuplicateDigest), byDigest, successors;
      }
      if f.body.site != site {
        assert !FileLoads(files[i], site, duration, interval, clock(i));
        return Some(WrongBinding), byDigest, successors;
      }
      IndexOneMore(files, i, byDigest, successors);
      OneMoreLoads(files, i, byDigest, site, duration, interval, clock);
      byDigest, successors := byDigest[f.digest := i], Enter(successors, f.digest);
    }
    error := None;
  }

  lemma OneMoreLoads(files: seq<File>, i: nat, byDigest: map<Digest, nat>, site: nat, duration: nat, interval: nat,
                     clock: nat -> real)
    requires DigestsIndexed(files, i, byDigest) && i < |files| && Hash(files[i].body) !in byDigest
    requires interval > 0 && FilesLoad(files, i, site, duration, interval, clock)
    requires FileLoads(files[i], site, duration, interval, clock(i))
    ensures FilesLoad(files, i + 1, site, duration, interval, clock)
  {
    assert forall k :: 0 <= k < i ==> Hash(files[k].body) in byDigest;
  }

  lemma IndexOneMore(files: seq<File>, i: nat, byDigest: map<Digest, nat>, successors: map<Digest, seq<Digest>>)
    requires Indexed(files, i, byDigest, successors) && i < |files| && Hash(files[i].body) !in byDigest
    ensures Indexed(files, i + 1, byDigest[Hash(files[i].body) := i], Enter(successors, Hash(files[i].body)))
  {
    var d := Hash(files[i].body);
    DigestsOneMore(files, i, byDigest);
    SuccessorsOneMore(byDigest.Keys, successors, d);
    assert byDigest.Keys + {d} == byDigest[d := i].Keys;
  }

  lemma DigestsOneMore(files: seq<File>, i: nat, byDigest: map<Digest, nat>)
    requires DigestsIndexed(files, i, byDigest) && i < |files| && Hash(files[i].body) !in byDigest
    ensures DigestsIndexed(files, i + 1, byDigest[Hash(files[i].body) := i])
  {
    assert forall k :: 0 <= k < i ==> Hash(files[k].body) in byDigest;
  }

  /** Listing a new digest under its prior. */
  lemma SuccessorsOneMore(known: set<Digest>, successors: map<Digest, seq<Digest>>, d: Digest)
    requires SuccessorsIndexed(known, successors) && d.Hash? && d !in known
    ensures SuccessorsIndexed(known + {d}, Enter(successors, d))
  {
    var children := Children(successors, d.body.prior);
    var successors' := Enter(successors, d);
    forall q | q in successors'
      ensures ChildrenOf(known + {d}, q, successors'[q])
    {
      if q in successors {
        assert ChildrenOf(known, q, successors[q]);
      }
    }
    assert (children + [d])[|children|] == d;
    forall e | e in known
      ensures e in successors'[e.body.prior]
    {
      if e.body.prior == d.body.prior {
        var a :| 0 <= a < |children| && children[a] == e;
        assert (children + [d])[a] == e;
      }
    }
  }

  // ------------------------------------------------------------------ linking

  /** The known digests are those of the path to `tip`, which is linked throughout. */
  ghost predicate Covers(known: set<Digest>, tip: Checkpoint) {
    Linked(tip) && forall c :: c in PathTo(tip) <==> Hash(c) in known
  }

  ghost predicate NoForkOrOrphan(known: set<Digest>, successors: map<Digest, seq<Digest>>) {
    Genesis in successors && forall p :: p in successors ==> (p.Genesis? || p in known) && |successors[p]| == 1
  }

  lemma CoveredHasNoFork(known: set<Digest>, successors: map<Digest, seq<Digest>>, tip: Checkpoint)
    requires SuccessorsIndexed(known, successors) && Covers(known, tip)
    ensures NoForkOrOrphan(known, successors)
  {
    PathStartsAtGenesis(tip);
    assert Hash(PathTo(tip)[0]) in known;
    forall p | p in successors
      ensures (p.Genesis? || p in known) && |successors[p]| == 1
    {
      var children := successors[p];
      assert ChildrenOf(known, p, children);
      assert Hash(children[0].body) in known;
      PathIsClosed(tip, children[0].body);
      if |children| > 1 {
        assert Hash(children[1].body) in known;
        OneSuccessor(tip, children[0].body, children[1].body);
      }
    }
  }

  /** The loop over the successor lists. */
  method CheckSuccessors(known: set<Digest>, successors: map<Digest, seq<Digest>>) returns (error: Option<ChainError>)
    requires SuccessorsIndexed(known, successors)
    ensures error.None? <==> NoForkOrOrphan(known, successors)
  {
    if |Children(successors, Genesis)| != 1 { return Some(GenesisChildren); }
    var left := successors.Keys;
    while left != {}
      invariant left <= successors.Keys
      invariant forall p :: p in successors && p !in left ==> (p.Genesis? || p in known) && |successors[p]| == 1
      decreases left
    {
      var p :| p in left;
      assert ChildrenOf(known, p, successors[p]);
      if !p.Genesis? && p !in known { return Some(Orphan); }
      if |successors[p]| > 1 { return Some(Fork); }
      left := left - {p};
    }
    error := None;
  }

  /** A successor is never on the path to its prior, so a walk cannot return. */
  lemma NoCycle(before: Checkpoint, after: Checkpoint)
    requires after.prior == Hash(before)
    ensures after !in PathTo(before)
  {
    if after in PathTo(before) {
      PathGetsSmaller(before, after);
    }
  }

  lemma BadLink(known: set<Digest>, before: Checkpoint, after: Checkpoint)
    requires Hash(after) in known && after.prior == Hash(before) && !LinkOk(before, after)
    ensures forall tip :: !Covers(known, tip)
  {
    forall tip
      ensures !Covers(known, tip)
    {
      if Covers(known, tip) {
        assert after in PathTo(tip);
        PathIsClosed(tip, after);
      }
    }
  }

  /** A checkpoint without a successor is the tip, if the files are one path at all. */
  lemma DeadEnd(known: set<Digest>, successors: map<Digest, seq<Digest>>, b: Checkpoint, tip: Checkpoint)
    requires SuccessorsIndexed(known, successors) && Hash(b) in known && Hash(b) !in successors
    requires Covers(known, tip)
    ensures tip == b
  {
    assert b in PathTo(tip);
    forall a | a in PathTo(tip)
      ensures a.prior != Hash(b)
    {
      assert Hash(a) in known;
    }
    if b != tip {
      SuccessorOnPath(tip, b);
    }
  }

  /** The walk can stop short of a file only if the files are not one path. */
  lemma StoppedShort(known: set<Digest>, successors: map<Digest, seq<Digest>>, walked: set<Digest>, b: Checkpoint)
    requires SuccessorsIndexed(known, successors) && Hash(b) in known && Hash(b) !in successors
    requires walked <= known && |walked| != |known|
    requires forall c :: c in PathTo(b) <==> Hash(c) in walked
    ensures forall tip :: !Covers(known, tip)
  {
    forall tip
      ensures !Covers(known, tip)
    {
      if Covers(known, tip) {
        DeadEnd(known, successors, b, tip);
        SameDigests(known, walked, tip);
      }
    }
  }

  lemma SameDigests(known: set<Digest>, walked: set<Digest>, tip: Checkpoint)
    requires forall d :: d in known ==> d.Hash?
    requires Covers(known, tip) && walked <= known
    requires forall c :: c in PathTo(tip) <==> Hash(c) in walked
    ensures walked == known
  {
    forall d | d in known
      ensures d in walked
    {
      assert Hash(d.body) in known;
    }
  }

  lemma SameSize<T>(a: set<T>, b: set<T>)
    requires a <= b && |a| == |b|
    ensures a == b
  {
    assert b == a + (b - a);
  }

  /** Where the walk stands before it visits `here`: it came from `previous`, and has
      visited exactly the path to it. */
  ghost predicate Walking(known: set<Digest>, walked: set<Digest>, previous: Option<Checkpoint>, here: Digest) {
    && here in known && here.Hash?
    && (forall d :: d in walked ==> d.Hash?)
    && walked <= known
    && (previous.None? ==> walked == {} && here.body.prior.Genesis?)
    && (previous.Some? ==> here.body.prior == Hash(previous.value))
    && (previous.Some? ==> Linked(previous.value) && previous.value.state.Incomplete?)
    && (previous.Some? ==> forall c :: c in PathTo(previous.value) <==> Hash(c) in walked)
  }

  /** The walk from genesis.  Its first check in the program, for a digest visited before,
      is the invariant `here !in walked`. */
  method Walk(known: set<Digest>, successors: map<Digest, seq<Digest>>) returns (r: Result<Checkpoint, ChainError>)
    requires SuccessorsIndexed(known, successors) && NoForkOrOrphan(known, successors)
    ensures r.Ok? ==> Covers(known, r.value)
    ensures r.Err? ==> forall tip :: !Covers(known, tip)
  {
    var walked := {};
    assert ChildrenOf(known, Genesis, successors[Genesis]);
    var here := successors[Genesis][0];
    var previous: Option<Checkpoint> := None;
    while true
      invariant Walking(known, walked, previous, here)
      invariant here !in walked
      decreases known - walked
    {
      var checkpoint := here.body;
      if previous.Some? {
        var index := previous.value.nextIndex;
        if checkpoint.nextIndex != index + 1 && !(checkpoint.nextIndex == index && !checkpoint.state.Incomplete?) {
          BadLink(known, previous.value, checkpoint);
          return Err(ScheduleGap);
        }
        if checkpoint.attempt < previous.value.attempt || checkpoint.attempt > previous.value.attempt + 1 {
          BadLink(known, previous.value, checkpoint);
          return Err(AttemptJump);
        }
      }
      assert Linked(checkpoint);
      walked := walked + {here};
      assert forall c :: c in PathTo(checkpoint) <==> Hash(c) in walked;
      var children := Children(successors, here);
      if children == [] {
        if |walked| != |known| {
          StoppedShort(known, successors, walked, checkpoint);
          return Err(Unreached);
        }
        SameSize(walked, known);
        return Ok(checkpoint);
      }
      assert ChildrenOf(known, here, children);
      if !checkpoint.state.Incomplete? {
        BadLink(known, checkpoint, children[0].body);
        return Err(ExtendsTerminal);
      }
      NoCycle(checkpoint, children[0].body);
      here, previous := children[0], Some(checkpoint);
    }
  }

  // ------------------------------------------------------------------ the loader

  /** A chain is: every file in order, none twice, and the files cover a linked path. */
  lemma ChainIsCoveredPath(files: seq<File>, byDigest: map<Digest, nat>, site: nat, duration: nat, interval: nat,
                           tip: Checkpoint)
    requires interval > 0 && DigestsIndexed(files, |files|, byDigest)
    ensures (forall c :: c in PathTo(tip) <==> exists i :: 0 <= i < |files| && files[i].body == c) <==>
            (forall c :: c in PathTo(tip) <==> Hash(c) in byDigest.Keys)
  {
    forall c
      ensures (exists i :: 0 <= i < |files| && files[i].body == c) <==> Hash(c) in byDigest.Keys
    {
      if Hash(c) in byDigest.Keys {
        assert files[byDigest[Hash(c)]].body == c;
      }
    }
  }

  lemma AcceptableParts(files: seq<File>, byDigest: map<Digest, nat>, site: nat, duration: nat, interval: nat,
                        clock: nat -> real, tip: Checkpoint)
    requires interval > 0 && DigestsIndexed(files, |files|, byDigest)
    requires FilesLoad(files, |files|, site, duration, interval, clock)
    ensures ChainTo(files, site, duration, interval, tip) <==> Covers(byDigest.Keys, tip)
  {
    ChainIsCoveredPath(files, byDigest, site, duration, interval, tip);
    forall f | f in files
      ensures FileOk(f, site, duration, interval)
    {
      var k :| 0 <= k < |files| && files[k] == f;
      assert FileLoads(files[k], site, duration, interval, clock(k));
    }
  }

  lemma AcceptableLoads(files: seq<File>, site: nat, duration: nat, interval: nat, clock: nat -> real, tip: Checkpoint)
    requires interval > 0 && Acceptable(files, site, duration, interval, clock, tip)
    ensures files != [] && FilesLoad(files, |files|, site, duration, interval, clock)
  {
    TipIsLast(tip);
    forall k | 0 <= k < |files|
      ensures FileLoads(files[k], site, duration, interval, clock(k))
    {
      assert files[k] in files;
    }
  }

  method LoadDurableChain(files: seq<File>, site: nat, duration: nat, interval: nat, clock: nat -> real)
    returns (r: Result<Checkpoint, ChainError>)
    requires interval > 0
    ensures r.Ok? ==> Acceptable(files, site, duration, interval, clock, r.value)
    ensures r.Err? ==> forall tip :: !Acceptable(files, site, duration, interval, clock, tip)
  {
    forall tip | Acceptable(files, site, duration, interval, clock, tip)
      ensures files != [] && FilesLoad(files, |files|, site, duration, interval, clock)
    {
      AcceptableLoads(files, site, duration, interval, clock, tip);
    }
    if files == [] { return Err(NoChain); }
    var error, byDigest, successors := IndexFiles(files, site, duration, interval, clock);
    if error.Some? { return Err(error.value); }
    forall tip
      ensures ChainTo(files, site, duration, interval, tip) <==> Covers(byDigest.Keys, tip)
    {
      AcceptableParts(files, byDigest, site, duration, interval, clock, tip);
    }
    forall tip | Covers(byDigest.Keys, tip)
      ensures NoForkOrOrphan(byDigest.Keys, successors)
    {
      CoveredHasNoFork(byDigest.Keys, successors, tip);
    }
    error := CheckSuccessors(byDigest.Keys, successors);
    if error.Some? { return Err(error.value); }
    r := Walk(byDigest.Keys, successors);
    if r.Err? { return; }
    var tip := r.value;
    TipIsLast(tip);
    forall other | Covers(byDigest.Keys, other)
      ensures other == tip
    {
      OneTip(byDigest.Keys, tip, other);
    }
    var stale := LoadCheckpoint(files[byDigest[Hash(tip)]], duration, interval, clock(|files|), true);
    if stale.Some? { r := Err(BadFile(stale.value)); }
  }

  /** A bag of checkpoints is the path to at most one tip. */
  lemma OneTip(known: set<Digest>, tip: Checkpoint, other: Checkpoint)
    requires Covers(known, tip) && Covers(known, other)
    ensures tip == other
  {
    forall c
      ensures c in PathTo(tip) <==> c in PathTo(other)
    {
      assert c in PathTo(tip) <==> Hash(c) in known;
    }
    SamePathSameTip(tip, other);
  }
}
