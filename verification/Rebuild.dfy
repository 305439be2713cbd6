/** The executor's dispatcher rebuilds: load, attach every extension, swap, persist, and roll back when
    a call fails. Each call of the store, the kernel and bpffs is one step; `faults` says which of the
    calls that may fail do, and `history` records the point after every step. */
module Rebuild {
  import opened Options
  import opened ProceedOn
  import opened Chain
  import opened RebuildSlots
  import opened AttachPoint
  import opened Coherence
  import opened RebuildSteps

  datatype Reply = Failed | Attached(linkId: LinkId, position: nat)

  class Executor {
    const dt: DispatcherType
    /** Which of the calls that may fail do, by number. */
    const faults: nat -> bool
    /** The handle the kernel picks for the filter created by each call. */
    const handles: nat -> Handle

    var snap: Option<Snapshot>
    var kernel: Kernel
    var fs: BpfFs
    var nextLink: LinkId
    var calls: nat
    ghost var history: seq<Point>

    constructor (dt: DispatcherType, faults: nat -> bool, handles: nat -> Handle, nextLink: LinkId)
      ensures this.dt == dt && this.faults == faults && this.handles == handles && calls == 0
      ensures Now() == EmptyPoint() && this.nextLink == nextLink
      ensures Coherent(dt, Now())
    {
      this.dt, this.faults, this.handles, this.nextLink := dt, faults, handles, nextLink;
      snap, kernel, fs := None, EmptyPoint().kernel, EmptyPoint().fs;
      calls, history := 0, [];
    }

    function Now(): Point
      reads this
    {
      Point(snap, kernel, fs)
    }

    /** None of the next n calls fails. */
    ghost predicate Quiet(n: nat)
      reads this
    {
      forall k :: calls <= k < calls + n ==> !faults(k)
    }

    method Become(p: Point)
      modifies this
      ensures Now() == p && history == old(history) + [p] && nextLink == old(nextLink) && calls == old(calls)
    {
      snap, kernel, fs := p.snap, p.kernel, p.fs;
      history := history + [p];
    }

    method Fault() returns (fails: bool)
      modifies this`calls
      ensures fails == faults(old(calls)) && calls == old(calls) + 1
    {
      fails := faults(calls);
      calls := calls + 1;
    }

    /** LoadAndPinXDPDispatcher and LoadAndPinTCDispatcher. */
    method LoadAndPin(rev: Revision, cfg: Config) returns (id: Option<ProgramId>)
      modifies this
      ensures nextLink == old(nextLink) && calls == old(calls) + 1
      ensures id.Some? <==> !faults(old(calls))
      ensures id.None? ==> Now() == old(Now()) && history == old(history)
      ensures id.Some? ==> id.value == old(kernel.nextId)
      ensures id.Some? ==> Now() == Load(old(Now()), rev, cfg) && history == old(history) + [Now()]
    {
      var fails := Fault();
      if fails {
        return None;
      }
      id := Some(kernel.nextId);
      Become(Load(Now(), rev, cfg));
    }

    /** AttachXDPExtension and AttachTCExtension. */
    method AttachExtension(rev: Revision, pos: nat, prog: ProgramId) returns (link: Option<nat>)
      modifies this
      ensures nextLink == old(nextLink) && calls == old(calls) + 1
      ensures link.Some? <==> !faults(old(calls)) && CanAttachExt(old(Now()), rev, pos)
      ensures link.None? ==> Now() == old(Now()) && history == old(history)
      ensures link.Some? ==> CanAttachExt(old(Now()), rev, pos) && link.value == old(kernel.nextId)
      ensures link.Some? ==> Now() == AttachExt(old(Now()), rev, pos, prog) && history == old(history) + [Now()]
    {
      var fails := Fault();
      if fails || !CanAttachExt(Now(), rev, pos) {
        return None;
      }
      link := Some(kernel.nextId);
      Become(AttachExt(Now(), rev, pos, prog));
    }

    /** cleanupExtensions, then cleanupNewDispatcher (attach) or cleanupNewRevision (detach). */
    method Unstage(rev: Revision, n: nat, whole: bool, ghost a: Point, ghost id: ProgramId)
      requires Unused(a, rev) && Residue(a, Now(), rev, id, 0, n)
      modifies this
      ensures Restored(a, Now()) && nextLink == old(nextLink)
      ensures old(history) <= history
      ensures forall i :: |old(history)| <= i < |history| ==> SameService(a, history[i])
    {
      for j := 0 to n
        invariant Residue(a, Now(), rev, id, j, n)
        invariant nextLink == old(nextLink) && old(history) <= history
        invariant forall i :: |old(history)| <= i < |history| ==> SameService(a, history[i])
      {
        DetachResidue(a, Now(), rev, id, j, n);
        Become(DetachExt(Now(), rev, j));
      }
      DropResidue(a, Now(), rev, id, n);
      if whole {
        Become(RemoveRevDir(Now(), rev));
      } else {
        Become(RemoveProgPin(Now(), rev));
      }
    }

    /** The loop that attaches every slot's extension to the loaded revision. */
    method AttachAll(rev: Revision, slots: seq<Slot>, whole: bool, ghost a: Point, id: ProgramId)
        returns (ok: bool, links: seq<nat>)
      requires Unused(a, rev) && 1 <= |slots| <= MAX_PROGRAMS && Staged(a, Now(), rev, slots, id, [])
      modifies this
      ensures nextLink == old(nextLink) && old(history) <= history
      ensures forall i :: |old(history)| <= i < |history| ==> SameService(a, history[i])
      ensures !ok ==> Restored(a, Now())
      ensures ok ==> |links| == |slots| && Staged(a, Now(), rev, slots, id, links) && calls == old(calls) + |slots|
      ensures ok <==> old(Quiet(|slots|))
    {
      hide Staged, SameService, Restored, Unused, Residue, AttachExt, CanAttachExt;
      links := [];
      for i := 0 to |slots|
        invariant |links| == i && Staged(a, Now(), rev, slots, id, links)
        invariant calls == old(calls) + i && forall k :: old(calls) <= k < calls ==> !faults(k)
        invariant nextLink == old(nextLink) && old(history) <= history
        invariant forall k :: |old(history)| <= k < |history| ==> SameService(a, history[k])
      {
        AttachStages(a, Now(), rev, slots, id, links);
        StagedPin(a, Now(), rev, slots, id, links);
        var link := AttachExtension(rev, i, slots[i].ext.programId);
        if link.None? {
          Unstage(rev, i, whole, a, id);
          return false, links;
        }
        links := links + [link.value];
        StagedPin(a, Now(), rev, slots, id, links);
      }
      ok := true;
    }

    /** Load the new revision and attach every slot, or leave nothing of it behind. */
    method Stage(rev: Revision, slots: seq<Slot>, whole: bool) returns (id: Option<ProgramId>, links: seq<nat>)
      requires FreshIds(Now()) && Unused(Now(), rev) && 1 <= |slots| <= MAX_PROGRAMS
      modifies this
      ensures nextLink == old(nextLink) && old(history) <= history
      ensures forall i :: |old(history)| <= i < |history| ==> SameService(old(Now()), history[i])
      ensures id.None? ==> Restored(old(Now()), Now())
      ensures id.Some? ==> |links| == |slots| && Staged(old(Now()), Now(), rev, slots, id.value, links)
      ensures id.Some? ==> calls == old(calls) + |slots| + 1
      ensures id.Some? <==> old(Quiet(|slots| + 1))
    {
      hide Staged, Unused, Residue;
      ghost var a := Now();
      links := [];
      var cfg := NewConfig(seq(|slots|, i requires 0 <= i < |slots| => slots[i].ext.proceedOn));
      LoadStages(a, rev, slots);
      id := LoadAndPin(rev, cfg.value);
      if id.None? {
        return;
      }
      StagedPin(a, Now(), rev, slots, id.value, links);
      var ok;
      ok, links := AttachAll(rev, slots, whole, a, id.value);
      if !ok {
        id := None;
      }
    }

    /** CreateXDPLink on first attach, UpdateXDPDispatcherLink otherwise. */
    method SwapXdpLink(first: bool, rev: Revision) returns (ok: bool)
      modifies this
      ensures nextLink == old(nextLink)
      ensures !ok ==> Now() == old(Now()) && history == old(history)
      ensures ok ==> rev in old(fs.progPins) && history == old(history) + [Now()]
      ensures ok ==> Now() == WithXdpLink(old(Now()), Some(old(fs.progPins[rev]))) && kernel.xdpLink.Some? 
      ensures calls == old(calls) + 1
      ensures ok <==> !faults(old(calls)) && rev in old(fs.progPins) && (old(kernel.xdpLink).None? <==> first)
    {
      var fails := Fault();
      ok := !fails && rev in fs.progPins && (kernel.xdpLink.None? <==> first);
      if ok {
        Become(WithXdpLink(Now(), Some(fs.progPins[rev])));
      }
    }

    /** CreateTCFilter with handle 0: the kernel picks a handle that is not in use. */
    method CreateTCFilter(rev: Revision) returns (h: Option<Handle>)
      modifies this
      ensures nextLink == old(nextLink)
      ensures h.None? ==> Now() == old(Now()) && history == old(history)
      ensures h.Some? ==> rev in old(fs.progPins) && h.value != 0 && h.value !in old(kernel.filters)
      ensures h.Some? ==> Now() == WithFilters(old(Now()), old(kernel.filters)[h.value := old(fs.progPins[rev])])
      ensures h.Some? ==> history == old(history) + [Now()]
      ensures calls == old(calls) + 1 && (h.Some? ==> h.value == handles(old(calls)))
      ensures h.Some? <==> !faults(old(calls)) && rev in old(fs.progPins) && handles(old(calls)) != 0 && handles(old(calls)) !in old(kernel.filters)
    {
      var pick := handles(calls);
      var fails := Fault();
      if fails || rev !in fs.progPins || pick == 0 || pick in kernel.filters {
        return None;
      }
      Become(WithFilters(Now(), kernel.filters[pick := fs.progPins[rev]]));
      return Some(pick);
    }

    /** ReplaceDispatcherSnapshot: one transaction. */
    method Persist(rev: Revision, id: ProgramId, handle: Handle, slots: seq<Slot>, links: seq<nat>) returns (ok: bool)
      requires |links| == |slots|
      modifies this
      ensures !ok ==> Now() == old(Now()) && history == old(history) && nextLink == old(nextLink)
      ensures ok ==> CanPersist(dt, rev, slots) && nextLink == old(nextLink) + CountNew(slots)
      ensures ok ==> Now() == old(Now()).(snap := Some(Snapshot(rev, id, handle, Complete(slots, links, old(nextLink)))))
      ensures ok ==> history == old(history) + [Now()]
      ensures calls == old(calls) + 1 && (ok <==> !faults(old(calls)) && CanPersist(dt, rev, slots))
    {
      var fails := Fault();
      ok := !fails && CanPersist(dt, rev, slots);
      if ok {
        Become(Now().(snap := Some(Snapshot(rev, id, handle, Complete(slots, links, nextLink)))));
        nextLink := nextLink + CountNew(slots);
      }
    }

    /** Roll an XDP rebuild back after its snapshot could not be persisted: the link is detached on a first
        attach, otherwise pointed at the program pinned for the stored revision. */
    method RollBackXdp(whole: bool, ghost a: Point, ghost c: Point, slots: seq<Slot>, ghost id: ProgramId, ghost links: seq<nat>)
      requires dt.XDP? && Coherent(dt, a) && |links| == |slots| <= MAX_PROGRAMS
      requires a.kernel.xdpLink.None? <==> a.snap.None?
      requires Staged(a, c, NextRevision(a.snap), slots, id, links) && Now() == WithXdpLink(c, Some(id))
      modifies this
      ensures nextLink == old(nextLink) && old(history) <= history && RolledBack(dt, a, Now())
      ensures forall i :: |old(history)| <= i < |history| ==> Whole(dt, a, slots, history[i])
    {
      hide Whole, Coherent, Residue, ConfigOf, Filled, KeepsProgs, FreshIds, Unused;
      ghost var m := |history|;
      NextUnused(dt, a);
      StagedPin(a, c, NextRevision(a.snap), slots, id, links);
      PinsKept(dt, a, c, slots, id, links);
      XdpLinkPinned(dt, a);
      if snap.None? {
        Become(WithXdpLink(Now(), None));
      } else if snap.value.revision in fs.progPins {
        Become(WithXdpLink(Now(), Some(fs.progPins[snap.value.revision])));
      }
      assert Now() == c;
      Unstage(NextRevision(snap), |slots|, whole, a, id);
      SuffixSame(dt, a, slots, history, m);
    }

    /** The calls of an XDP rebuild whose new revision is staged: swap the link, persist, tidy up. */
    method FinishXdp(slots: seq<Slot>, whole: bool, ghost a: Point, id: ProgramId, links: seq<nat>) returns (ok: bool)
      requires dt.XDP? && Coherent(dt, a) && |links| == |slots| <= MAX_PROGRAMS
      requires Staged(a, Now(), NextRevision(a.snap), slots, id, links)
      modifies this
      ensures ok ==> Committed(dt, a, Now(), slots, old(nextLink)) && nextLink == old(nextLink) + CountNew(slots)
      ensures ok ==> calls == old(calls) + 2
      ensures !ok ==> RolledBack(dt, a, Now()) && nextLink == old(nextLink)
      ensures old(history) <= history
      ensures forall i :: |old(history)| <= i < |history| ==> Whole(dt, a, slots, history[i])
      ensures old(Quiet(2)) ==>
                (ok <==> CanPersist(dt, NextRevision(a.snap), slots) && (a.kernel.xdpLink.None? <==> a.snap.None?))
    {
      hide Whole, Coherent, Residue, CanPersist, Committed, Complete, ConfigOf, Filled, KeepsProgs, FreshIds, Unused;
      hide Staged, SameService, RolledBack, Restored;
      ghost var c := Now();
      StagedPin(a, c, NextRevision(a.snap), slots, id, links);
      NextUnused(dt, a);
      var oldSnap, first, rev := snap, snap.None?, NextRevision(snap);
      ok := SwapXdpLink(first, rev);
      if !ok {
        ghost var m := |history|;
        Unstage(rev, |slots|, whole, a, id);
        SuffixSame(dt, a, slots, history, m);
        RestoredRollsBack(dt, a, Now());
        return;
      }
      CoherentXdp(dt, a);
      StagedXdpWhole(dt, a, c, Now(), slots, id, links);
      ok := Persist(rev, id, 0, slots, links);
      if !ok {
        RollBackXdp(whole, a, c, slots, id, links);
        return;
      }
      StagedXdpWhole(dt, a, c, Now(), slots, id, links);
      Commits(dt, a, c, Now(), slots, id, links, 0, old(nextLink));
      if !first {
        Become(RemoveRevDir(Now(), oldSnap.value.revision));
      }
    }

    /** The XDP part of rebuildXDPDispatcher (whole false) and rebuildXDPForDetach (whole true). Without a
        failing call it succeeds exactly when the store takes the snapshot and the link is where the row says. */
    method RebuildXdp(slots: seq<Slot>, whole: bool) returns (ok: bool)
      requires dt.XDP? && Coherent(dt, Now()) && 1 <= |slots| <= MAX_PROGRAMS
      modifies this
      ensures ok ==> Committed(dt, old(Now()), Now(), slots, old(nextLink)) && nextLink == old(nextLink) + CountNew(slots)
      ensures ok ==> calls == old(calls) + |slots| + 3
      ensures !ok ==> RolledBack(dt, old(Now()), Now()) && nextLink == old(nextLink)
      ensures old(history) <= history && AllWhole(dt, old(Now()), slots, history[|old(history)|..])
      ensures old(Quiet(|slots| + 3)) ==> (ok <==> CanRebuild(dt, old(Now()), slots, 0))
    {
      hide Whole, Coherent, Residue, CanPersist, Committed, Complete, ConfigOf, Filled, KeepsProgs, FreshIds, Unused, Staged;
      ghost var a, n := Now(), |history|;
      NextUnused(dt, a);
      CoherentXdp(dt, a);
      var id, links := Stage(NextRevision(snap), slots, whole);
      SuffixSame(dt, a, slots, history, n);
      if id.None? {
        RestoredRollsBack(dt, a, Now());
        return false;
      }
      ok := FinishXdp(slots, whole, a, id.value, links);
    }

    /** Create the new filter, then remove the old one by its recorded handle. */
    method SwapTcFilter(ghost a: Point, slots: seq<Slot>, id: ProgramId, links: seq<nat>) returns (created: Option<Handle>)
      requires !dt.XDP? && Coherent(dt, a) && |links| == |slots|
      requires Staged(a, Now(), NextRevision(a.snap), slots, id, links)
      modifies this
      ensures nextLink == old(nextLink) && old(history) <= history
      ensures created.None? ==> Now() == old(Now()) && history == old(history)
      ensures created.Some? ==> created.value != 0 && created.value !in a.kernel.filters
      ensures created.Some? ==> Now() == WithFilters(old(Now()), SwappedFilters(a, created.value, id))
      ensures forall i :: |old(history)| <= i < |history| ==> Whole(dt, a, slots, history[i])
      ensures a.kernel.filters != map[] ==>
                forall i :: |old(history)| <= i < |history| ==> history[i].kernel.filters != map[]
      ensures calls == old(calls) + 1
      ensures created == if !faults(old(calls)) && CanPick(a, handles(old(calls))) then Some(handles(old(calls))) else None
    {
      hide Whole, Coherent, Residue, ConfigOf, Filled, KeepsProgs, FreshIds, Staged;
      ghost var c := Now();
      StagedPin(a, c, NextRevision(a.snap), slots, id, links);
      created := CreateTCFilter(NextRevision(snap));
      if created.None? {
        return;
      }
      var h := created.value;
      TcFilters(dt, a, h, id);
      StagedTcWhole(dt, a, c, Now(), slots, id, links);
      assert h in kernel.filters;
      if snap.Some? {
        Become(WithFilters(Now(), kernel.filters - {snap.value.filterHandle}));
        assert kernel.filters == SwappedFilters(a, h, id);
        StagedTcWhole(dt, a, c, Now(), slots, id, links);
      }
    }

    /** Roll a TC rebuild back after its snapshot could not be persisted. */
    method RollBackTc(whole: bool, ghost a: Point, ghost c: Point, slots: seq<Slot>, id: ProgramId, links: seq<nat>, h: Handle)
      requires !dt.XDP? && Coherent(dt, a) && |links| == |slots| <= MAX_PROGRAMS && h !in a.kernel.filters
      requires Staged(a, c, NextRevision(a.snap), slots, id, links)
      requires Now() == WithFilters(c, SwappedFilters(a, h, id))
      modifies this
      ensures nextLink == old(nextLink) && old(history) <= history && RolledBack(dt, a, Now())
      ensures forall i :: |old(history)| <= i < |history| ==> Whole(dt, a, slots, history[i])
    {
      hide Whole, Coherent, Residue, ConfigOf, Filled, KeepsProgs, FreshIds, Unused, Staged, OldOrNewFilters, Refiltered;
      hide RolledBack, Restored;
      ghost var rev := NextRevision(a.snap);
      NextUnused(dt, a);
      StagedPin(a, c, rev, slots, id, links);
      TcFilters(dt, a, h, id);
      Become(WithFilters(Now(), kernel.filters - {h}));
      StagedTcWhole(dt, a, c, Now(), slots, id, links);
      PinsKept(dt, a, c, slots, id, links);
      if snap.Some? && snap.value.revision in fs.progPins {
        Become(WithFilters(Now(), kernel.filters[snap.value.filterHandle := fs.progPins[snap.value.revision]]));
        StagedTcWhole(dt, a, c, Now(), slots, id, links);
      }
      ghost var filters := RestoredFilters(a, h, id);
      ghost var a' := WithFilters(a, filters);
      assert Now() == WithFilters(c, filters);
      StagedRefilter(a, c, rev, slots, id, links, filters);
      RefilteredCoherent(dt, a, filters);
      ghost var m := |history|;
      NextUnused(dt, a');
      Unstage(NextRevision(snap), |slots|, whole, a', id);
      SuffixSame(dt, a', slots, history, m);
      forall i | m <= i < |history| ensures Whole(dt, a, slots, history[i]) {
        WholeRefilter(dt, a, filters, slots, history[i]);
      }
      RefilteredRollback(dt, a, filters, Now());
    }

    /** The calls of a TC rebuild whose new revision is staged: swap the filter, persist, tidy up. */
    method FinishTc(slots: seq<Slot>, whole: bool, ghost a: Point, id: ProgramId, links: seq<nat>) returns (ok: bool)
      requires !dt.XDP? && Coherent(dt, a) && |links| == |slots| <= MAX_PROGRAMS
      requires Staged(a, Now(), NextRevision(a.snap), slots, id, links)
      modifies this
      ensures ok ==> Committed(dt, a, Now(), slots, old(nextLink)) && nextLink == old(nextLink) + CountNew(slots)
      ensures ok ==> calls == old(calls) + 2 && snap.value.filterHandle == handles(old(calls))
      ensures !ok ==> RolledBack(dt, a, Now()) && nextLink == old(nextLink)
      ensures old(history) <= history
      ensures forall i :: |old(history)| <= i < |history| ==> Whole(dt, a, slots, history[i])
      ensures ok && a.kernel.filters != map[] ==>
                forall i :: |old(history)| <= i < |history| ==> history[i].kernel.filters != map[]
      ensures old(Quiet(2)) ==>
                (ok <==> CanPersist(dt, NextRevision(a.snap), slots) && CanPick(a, handles(old(calls))))
    {
      hide Whole, Coherent, Residue, CanPersist, Committed, Complete, ConfigOf, Filled, KeepsProgs, FreshIds, Unused;
      hide SwappedFilters, Staged, SameService, RolledBack, Restored;
      ghost var c := Now();
      StagedPin(a, c, NextRevision(a.snap), slots, id, links);
      NextUnused(dt, a);
      CoherentXdp(dt, a);
      var oldSnap, rev := snap, NextRevision(snap);
      var created := SwapTcFilter(a, slots, id, links);
      if created.None? {
        ghost var m := |history|;
        Unstage(rev, |slots|, whole, a, id);
        SuffixSame(dt, a, slots, history, m);
        RestoredRollsBack(dt, a, Now());
        return false;
      }
      var h := created.value;
      TcFilters(dt, a, h, id);
      ok := Persist(rev, id, h, slots, links);
      if !ok {
        RollBackTc(whole, a, c, slots, id, links, h);
        return;
      }
      SwappedOldOrNew(a, SwappedFilters(a, h, id), id);
      StagedTcWhole(dt, a, c, Now(), slots, id, links);
      IsSwapped(dt, a, Now());
      Commits(dt, a, c, Now(), slots, id, links, h, old(nextLink));
      if oldSnap.Some? {
        Become(RemoveRevDir(Now(), oldSnap.value.revision));
      }
    }

    /** The TC part of rebuildTCDispatcher (whole false) and rebuildTCForDetach (whole true). Without a failing
        call it succeeds exactly when the store takes the snapshot and the kernel picks a free handle. */
    method RebuildTc(slots: seq<Slot>, whole: bool) returns (ok: bool)
      requires !dt.XDP? && Coherent(dt, Now()) && 1 <= |slots| <= MAX_PROGRAMS
      modifies this
      ensures ok ==> Committed(dt, old(Now()), Now(), slots, old(nextLink)) && nextLink == old(nextLink) + CountNew(slots)
      ensures ok ==> calls == old(calls) + |slots| + 3 && snap.value.filterHandle == handles(old(calls) + |slots| + 1)
      ensures !ok ==> RolledBack(dt, old(Now()), Now()) && nextLink == old(nextLink)
      ensures old(history) <= history && AllWhole(dt, old(Now()), slots, history[|old(history)|..])
      ensures ok && old(kernel.filters) != map[] ==>
                forall i :: |old(history)| <= i < |history| ==> history[i].kernel.filters != map[]
      ensures old(Quiet(|slots| + 3)) ==> (ok <==> CanRebuild(dt, old(Now()), slots, handles(old(calls) + |slots| + 1)))
    {
      hide Whole, Coherent, Residue, CanPersist, Committed, Complete, ConfigOf, Filled, KeepsProgs, FreshIds, Unused, Staged;
      ghost var a, n := Now(), |history|;
      NextUnused(dt, a);
      CoherentXdp(dt, a);
      var id, links := Stage(NextRevision(snap), slots, whole);
      SuffixSame(dt, a, slots, history, n);
      if id.None? {
        RestoredRollsBack(dt, a, Now());
        return false;
      }
      ok := FinishTc(slots, whole, a, id.value, links);
    }

    /** sortRebuildSlots on a slice. */
    method Sorted(slots: seq<Slot>) returns (sorted: seq<Slot>)
      ensures sorted == Sort(slots)
    {
      var a := new Slot[|slots|](i requires 0 <= i < |slots| => slots[i]);
      assert a[..] == slots;
      SortRebuildSlots(a);
      return a[..];
    }

    method Rebuild(slots: seq<Slot>, whole: bool) returns (ok: bool)
      requires Coherent(dt, Now()) && 1 <= |slots| <= MAX_PROGRAMS
      modifies this
      ensures ok ==> Committed(dt, old(Now()), Now(), slots, old(nextLink)) && nextLink == old(nextLink) + CountNew(slots)
      ensures ok ==> calls == old(calls) + |slots| + 3
      ensures ok && !dt.XDP? ==> snap.value.filterHandle == handles(old(calls) + |slots| + 1)
      ensures !ok ==> RolledBack(dt, old(Now()), Now()) && nextLink == old(nextLink)
      ensures old(history) <= history && AllWhole(dt, old(Now()), slots, history[|old(history)|..])
      ensures old(Quiet(|slots| + 3)) ==> (ok <==> CanRebuild(dt, old(Now()), slots, handles(old(calls) + |slots| + 1)))
    {
      hide Coherent, RolledBack, AllWhole, CanPersist;
      if dt.XDP? {
        ok := RebuildXdp(slots, whole);
      } else {
        ok := RebuildTc(slots, whole);
      }
    }

    /** Where rebuildXDPDispatcher and rebuildTCDispatcher find the new slot again. */
    method NewPosition(slots: seq<Slot>, ghost k: nat) returns (position: nat)
      requires k < |slots| && slots[k].existing.None?
      requires forall i :: 0 <= i < |slots| && i != k ==> slots[i].existing.Some?
      ensures position == k
    {
      position := |slots| - 1;
      for i := 0 to |slots|
        invariant position == if k < i then k else |slots| - 1
      {
        if slots[i].existing.None? {
          position := i;
        }
      }
    }

    /** rebuildXDPDispatcher and rebuildTCDispatcher. Without a failing call an attach succeeds exactly when
        CanAttach says so. */
    method Attach(ext: Ext, metadata: map<string, string>) returns (r: Reply)
      requires Coherent(dt, Now())
      modifies this
      ensures AttachEnds(dt, old(Now()), Now(), ext, metadata, old(nextLink), nextLink, r.Attached?)
      ensures r.Attached? ==> Decodable(dt, ext.proceedOn) && r.linkId == old(nextLink)
      ensures r.Attached? ==> snap.Some? && snap.value.revision == if old(snap).None? then 1 else old(snap).value.revision + 1
      ensures r.Attached? ==> r.position == CountBelow(old(SlotsOf(Members(Now()))), ext.priority)
      ensures |old(Members(Now()))| == MAX_PROGRAMS ==> r.Failed? && Now() == old(Now())
      ensures r.Attached? ==> calls == old(calls) + |old(Members(Now()))| + 5 && !faults(old(calls))
      ensures r.Attached? && !dt.XDP? ==> snap.value.filterHandle == handles(old(calls) + |old(Members(Now()))| + 3)
      ensures old(Quiet(|Members(Now())| + 5)) ==>
                (r.Attached? <==> CanAttach(dt, old(Now()), ext, handles(old(calls) + |old(Members(Now()))| + 3)))
      ensures old(history) <= history
      ensures |old(Members(Now()))| < MAX_PROGRAMS ==>
                AllWhole(dt, old(Now()), AttachSlots(old(Now()), ext, metadata), history[|old(history)|..])
    {
      hide Coherent, Sort, AllWhole, RolledBack, Committed, CanRebuild, CanSwap, Decodable, Members, MemberLinkId, CountNew;
      ghost var a := Now();
      var fails := Fault();
      KeptSame(dt, a);
      AttachSlotsNew(a, ext, metadata, nextLink);
      if |Members(a)| < MAX_PROGRAMS { NoHistory(dt, a, AttachSlots(a, ext, metadata)); }
      assert history[|old(history)|..] == [];
      if fails {
        return Failed;
      }
      var slots := SlotsOf(Members(Now())) + [Slot(ext, None, metadata)];
      if |slots| > MAX_PROGRAMS {
        return Failed;
      }
      slots := Sorted(slots);
      AttachRebuilds(dt, a, ext, metadata, handles(old(calls) + |Members(a)| + 3));
      var ok := Rebuild(slots, false);
      if !ok {
        return Failed;
      }
      ghost var k := CountBelow(SlotsOf(Members(a)), ext.priority);
      var position := NewPosition(slots, k);
      CommittedMember(dt, a, Now(), slots, old(nextLink), k);
      return Attached(snap.value.members[position].linkId, position);
    }

    /** removeEmptyDispatcher: the outer detach may fail and leave everything; after it the pins go, and
        only deleting the row may still fail. */
    method RemoveEmpty() returns (ok: bool)
      requires Coherent(dt, Now()) && snap.Some?
      modifies this
      ensures nextLink == old(nextLink) && old(history) <= history
      ensures ok ==> Removed(old(Now()), Now()) && snap.None?
      ensures !ok ==> Now() == old(Now()) || (Removed(old(Now()), Now()) && snap == old(snap))
      ensures ok <==> old(Quiet(2))
      ensures !faults(old(calls)) ==> calls == old(calls) + 2 && Removed(old(Now()), Now())
    {
      hide RowOk, ConfigOf, Released, Pinned;
      ghost var a := Now();
      var s := snap.value;
      var fails := Fault();
      if fails {
        return false;
      }
      if dt.XDP? {
        Become(WithXdpLink(Now(), None));
      } else {
        Become(WithFilters(Now(), kernel.filters - {s.filterHandle}));
      }
      RemovedAll(dt, a, Now());
      Become(RemoveProgPin(Now(), s.revision));
      Become(RemoveRevDir(Now(), s.revision));
      fails := Fault();
      if fails {
        return false;
      }
      Become(Now().(snap := None));
      return true;
    }

    /** rebuildXDPForDetach and rebuildTCForDetach, on the members that stay. */
    method RebuildOthers(rest: seq<Member>, linkId: LinkId) returns (ok: bool)
      requires Coherent(dt, Now()) && rest != [] && rest == Others(Members(Now()), linkId)
      modifies this
      ensures ok ==> Committed(dt, old(Now()), Now(), DetachSlots(old(Members(Now())), linkId), old(nextLink))
      ensures !ok ==> RolledBack(dt, old(Now()), Now())
      ensures nextLink == old(nextLink) && old(history) <= history
      ensures |DetachSlots(old(Members(Now())), linkId)| <= MAX_PROGRAMS
      ensures AllWhole(dt, old(Now()), DetachSlots(old(Members(Now())), linkId), history[|old(history)|..])
      ensures old(Quiet(|rest| + 3)) ==> (ok <==> CanSwap(dt, old(Now()), handles(old(calls) + |rest| + 1)))
    {
      hide AllWhole, Coherent, Committed, RolledBack, Sort, Others, CountNew, CanRebuild, CanSwap;
      ghost var a := Now();
      var slots := Sorted(BareSlots(rest));
      DetachCounts(rest);
      DetachRebuilds(dt, a, linkId, handles(old(calls) + |rest| + 1));
      ok := Rebuild(slots, true);
    }

    /** rebuildDispatcherForDetach. */
    method RebuildForDetach(linkId: LinkId, netnsGone: bool) returns (ok: bool)
      requires Coherent(dt, Now()) && snap.Some?
      modifies this
      ensures DetachRebuildEnds(dt, old(Now()), Now(), linkId, netnsGone, old(nextLink), ok)
      ensures nextLink == old(nextLink) && old(history) <= history
      ensures var slots := DetachSlots(old(Members(Now())), linkId);
              |slots| <= MAX_PROGRAMS &&
              (slots != [] && !netnsGone ==> AllWhole(dt, old(Now()), slots, history[|old(history)|..]))
      ensures var members := old(Members(Now()));
              var n := |Others(members, linkId)|;
              && (old(Quiet(if Empties(members, linkId, netnsGone) then 3 else n + 4)) ==>
                    (ok <==> CanDetach(dt, old(Now()), linkId, netnsGone, handles(old(calls) + n + 2))))
              && (Empties(members, linkId, netnsGone) ==> (ok <==> old(Quiet(3))))
              && (old(Quiet(2)) && Empties(members, linkId, netnsGone) ==>
                    calls == old(calls) + 3 && Removed(old(Now()), Now()) && (!ok ==> snap == old(snap)))
    {
      hide AllWhole, Coherent, Removed, Committed, RolledBack, Sort, Others, CountNew, CanSwap;
      ghost var a := Now();
      DetachFits(dt, a, linkId);
      KeptSame(dt, a);
      NoHistory(dt, a, DetachSlots(Members(a), linkId));
      var fails := Fault();
      if fails {
        assert history[|old(history)|..] == [];
        return false;
      }
      var rest := Exclude(snap.value.members, linkId);
      if |rest| == 0 || netnsGone {
        ok := RemoveEmpty();
        return;
      }
      ok := RebuildOthers(rest, linkId);
    }

    /** The start of a detach: the link is looked up and its extension detached, so that the stub is back. */
    method BeginDetach(linkId: LinkId) returns (ok: bool)
      requires Coherent(dt, Now())
      modifies this
      ensures nextLink == old(nextLink) && (ok <==> IndexOf(old(Members(Now())), linkId).Some? && old(Quiet(2)))
      ensures !ok ==> Now() == old(Now()) && history == old(history)
      ensures ok ==> calls == old(calls) + 2 && history == old(history) + [Now()]
      ensures ok ==> old(snap).Some? && Now() == Begun(old(Now()), IndexOf(old(Members(Now())), linkId).value)
      ensures ok ==> Coherent(dt, Now()) && snap == old(snap)
      ensures ok ==> kernel.xdpLink == old(kernel.xdpLink) && kernel.filters == old(kernel.filters)
    {
      hide Coherent, DetachExt;
      ghost var a := Now();
      var pos := IndexOf(Members(Now()), linkId);
      var fails := Fault();
      if fails || pos.None? {
        return false;
      }
      fails := Fault();
      if fails {
        return false;
      }
      // The member's recorded pin is link_{position} of the stored revision.
      StoredPosition(dt, a, pos.value);
      DetachExtCoherent(dt, a, pos.value);
      Become(DetachExt(Now(), snap.value.revision, snap.value.members[pos.value].position));
      return true;
    }

    /** Manager.Detach of a dispatcher link: its plan detaches the extension link, then rebuilds. */
    method Detach(linkId: LinkId, netnsGone: bool) returns (ok: bool)
      requires Coherent(dt, Now())
      modifies this
      ensures DetachEnds(dt, old(Now()), Now(), linkId, netnsGone, old(nextLink), ok)
      ensures nextLink == old(nextLink) && old(history) <= history
      ensures var pos, slots := IndexOf(old(Members(Now())), linkId), DetachSlots(old(Members(Now())), linkId);
              pos.Some? && slots != [] && !netnsGone ==>
                && |slots| <= MAX_PROGRAMS
                && AllWhole(dt, Begun(old(Now()), pos.value), slots, history[|old(history)|..])
      ensures ok && !Empties(old(Members(Now())), linkId, netnsGone) ==>
                snap.Some? && old(snap).Some? && snap.value.revision == old(snap).value.revision + 1
      ensures ok && Empties(old(Members(Now())), linkId, netnsGone) ==> snap.None?
      ensures var members := old(Members(Now()));
              var pos, n := IndexOf(members, linkId), |Others(members, linkId)|;
              && (old(Quiet(if Empties(members, linkId, netnsGone) then 5 else n + 6)) ==>
                    (ok <==> pos.Some? && CanDetach(dt, old(Now()), linkId, netnsGone, handles(old(calls) + n + 4))))
              && (pos.Some? && Empties(members, linkId, netnsGone) ==> (ok <==> old(Quiet(5))))
              && (old(Quiet(4)) && pos.Some? && Empties(members, linkId, netnsGone) ==>
                    && calls == old(calls) + 5 && Removed(Begun(old(Now()), pos.value), Now())
                    && (!ok ==> snap == old(snap)))
    {
      hide Whole, Coherent, DetachRebuildEnds, Begun, Sort, Others, IndexOf, DetachSlots, Removed;
      ghost var a := Now();
      ghost var pos := IndexOf(Members(a), linkId);
      DetachFits(dt, a, linkId);
      ok := BeginDetach(linkId);
      if !ok {
        return;
      }
      ghost var a' := Now();
      SameServiceSelf(dt, a', DetachSlots(Members(a), linkId));
      ghost var began := history;
      ok := RebuildForDetach(linkId, netnsGone);
      assert history[|old(history)|..] == [a'] + history[|began|..];
      if ok {
        assert Members(a') == Members(a);
        RebuiltRevision(dt, a', Now(), linkId, netnsGone, old(nextLink));
      }
    }
  }
}
