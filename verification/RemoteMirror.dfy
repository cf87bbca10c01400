/** One undisturbed call of the mirror's relay, with pushes that may fail. */
module RemoteMirror {
  import opened Options
  import P = Publication
  import M = Mirror
  import opened ControlPlane

  class RemoteMirror {
    var refs: set<P.GenId>
    var release: Option<P.Release>

    function View(): M.Remote
      reads this
    {
      M.Remote(refs, release)
    }

    constructor ()
      ensures View() == M.Remote({}, None)
    {
      refs, release := {}, None;
    }

    /** Materialize the current release and force-push it, when there is one. */
    method SyncReleaseRef(cp: ControlPlane, ok: bool) returns (done: bool)
      modifies this`release
      ensures done == (ok || cp.release.None?)
      ensures release == if ok && cp.release.Some? then cp.release else old(release)
    {
      if cp.release.None? { return true; }
      if ok { release := cp.release; }
      done := ok;
    }

    /** `fails(n)` says whether push number `n` of this call fails; a failing push ends the
        call with its event still pending.  A call without a failure leaves no event
        pending and the remote at the current release. */
    method ProcessOutbox(cp: ControlPlane, fails: nat -> bool) returns (processed: Option<nat>)
      requires M.RelayInv(cp.outbox, cp.release, View(), M.Resting)
      requires cp.release.None? ==> cp.outbox == []
      modifies this, cp`outbox
      ensures M.RelayInv(cp.outbox, cp.release, View(), M.Resting)
      ensures |cp.outbox| == |old(cp.outbox)|
      ensures forall i :: 0 <= i < |cp.outbox| ==>
                cp.outbox[i].gen == old(cp.outbox)[i].gen &&
                (old(cp.outbox)[i].processed ==> cp.outbox[i].processed)
      ensures processed.Some? ==>
                M.NothingPending(cp.outbox) && release == cp.release &&
                processed.value == |M.Pending(old(cp.outbox), 0)|
      ensures (forall n :: !fails(n)) ==> processed.Some?
    {
      M.PendingIsTail(cp.outbox, 0);
      var pending := M.Pending(cp.outbox, 0);
      var push: nat := 0;
      for k := 0 to |pending|
        invariant |cp.outbox| == |old(cp.outbox)|
        invariant forall i :: 0 <= i < |cp.outbox| ==>
                    cp.outbox[i].gen == old(cp.outbox)[i].gen &&
                    (cp.outbox[i].processed <==> pending == [] || i < pending[0] + k)
        invariant M.RelayInv(cp.outbox, cp.release, View(), M.Resting)
      {
        var e := pending[k];
        if fails(push) { return None; }
        push := push + 1;
        refs := refs + {cp.outbox[e].gen};
        assert !cp.outbox[e].processed;
        var done := SyncReleaseRef(cp, !fails(push));
        if !done { return None; }
        push := push + 1;
        cp.outbox := cp.outbox[e := cp.outbox[e].(processed := true)];
      }
      if pending == [] {
        var done := SyncReleaseRef(cp, !fails(push));
        if !done { return None; }
      }
      processed := Some(|pending|);
    }
  }
}
