/** What the steps of a rebuild keep: which dispatchers a state runs, and how the states before and after a
    swap, a clean-up and a rollback are related. */
module RebuildSteps {
  import opened Options
  import opened ProceedOn
  import opened Chain
  import opened RebuildSlots
  import opened AttachPoint
  import opened Coherence

  /** The dispatchers a packet on the interface can reach. */
  ghost function Running(p: Point): set<Dispatcher> {
    set id | id in p.kernel.progs && (p.kernel.xdpLink == Some(id) || id in p.kernel.filters.Values) :: p.kernel.progs[id]
  }

  /** The dispatcher of the stored row. */
  ghost function Stored(p: Point): set<Dispatcher> {
    if p.snap.Some? && p.snap.value.programId in p.kernel.progs then {p.kernel.progs[p.snap.value.programId]} else {}
  }

  function Finished(slots: seq<Slot>): Dispatcher
    requires |slots| <= MAX_PROGRAMS
  {
    Dispatcher(ConfigOf(slots), Filled(slots, |slots|))
  }

  /** What a state seen during a rebuild of a may run: for XDP what a ran or the finished new dispatcher,
      for TC, whose filters overlap, no dispatcher but the stored and the finished new one. */
  ghost predicate Whole(dt: DispatcherType, a: Point, slots: seq<Slot>, h: Point)
    requires |slots| <= MAX_PROGRAMS
  {
    if dt.XDP? then Running(h) == Running(a) || Running(h) == {Finished(slots)}
    else Running(h) <= Stored(a) + {Finished(slots)}
  }

  ghost predicate AllWhole(dt: DispatcherType, a: Point, slots: seq<Slot>, history: seq<Point>)
    requires |slots| <= MAX_PROGRAMS
  {
    forall i :: 0 <= i < |history| ==> Whole(dt, a, slots, history[i])
  }

  lemma SameServiceWhole(dt: DispatcherType, a: Point, slots: seq<Slot>, h: Point)
    requires Coherent(dt, a) && SameService(a, h) && |slots| <= MAX_PROGRAMS
    ensures Running(h) == Running(a) && Whole(dt, a, slots, h)
  {
    assert forall id :: id in h.kernel.progs && (h.kernel.xdpLink == Some(id) || id in h.kernel.filters.Values) ==>
        id in a.kernel.progs && h.kernel.progs[id] == a.kernel.progs[id];
  }

  lemma NextUnused(dt: DispatcherType, a: Point)
    requires Coherent(dt, a)
    ensures Unused(a, NextRevision(a.snap))
  {}

  /** p is the staged point c up to its row and its attachment. */
  ghost predicate SameObjects(p: Point, c: Point) {
    p.kernel.progs == c.kernel.progs && p.kernel.nextId == c.kernel.nextId && p.fs == c.fs
  }

  /** The point a finished rebuild ends in: p without the old revision directory. */
  function Tidied(a: Point, p: Point): Point {
    if a.snap.None? then p else RemoveRevDir(p, a.snap.value.revision)
  }

  lemma ReleasedUntouched(p: Point, id: ProgramId, d: Dispatcher, rev: Revision)
    requires forall k :: k in p.fs.linkPins && k.0 == rev ==> p.fs.linkPins[k].target != id
    ensures Released(p, id, d, rev) == d
  {}

  lemma TidiedDispatcher(dt: DispatcherType, a: Point, c: Point, p: Point, slots: seq<Slot>, id: ProgramId, links: seq<nat>)
    requires Coherent(dt, a) && Staged(a, c, NextRevision(a.snap), slots, id, links) && SameObjects(p, c)
    ensures id in Tidied(a, p).kernel.progs && Tidied(a, p).kernel.progs[id] == c.kernel.progs[id]
  {
    hide ConfigOf, Filled, RowOk, Released;
    if a.snap.Some? {
      var oldRev := a.snap.value.revision;
      forall k | k in p.fs.linkPins && k.0 == oldRev ensures p.fs.linkPins[k].target != id {
        assert k in a.fs.linkPins;
        assert Pinned(a, a.snap.value);
      }
      hide Coherent, Staged;
      ReleasedUntouched(p, id, p.kernel.progs[id], oldRev);
    }
  }

  lemma TidiedPins(dt: DispatcherType, a: Point, c: Point, p: Point, slots: seq<Slot>, id: ProgramId, links: seq<nat>)
    requires Coherent(dt, a) && Staged(a, c, NextRevision(a.snap), slots, id, links) && SameObjects(p, c)
    ensures var q, rev := Tidied(a, p), NextRevision(a.snap);
            && q.fs.progPins == map[rev := id]
            && (forall k :: k in q.fs.linkPins <==> k.0 == rev && k.1 < |links|)
            && (forall j: nat :: j < |links| ==> q.fs.linkPins[(rev, j)] == ExtLink(links[j], id))
  {
    hide ConfigOf, Filled, RowOk, Released;
    var q, rev := Tidied(a, p), NextRevision(a.snap);
    assert q.fs.progPins == map[rev := id];
    forall k ensures k in q.fs.linkPins <==> k.0 == rev && k.1 < |links| {
      assert k in c.fs.linkPins <==> k in a.fs.linkPins || (k.0 == rev && 0 <= k.1 < |links|);
    }
  }

  /** With the swap done and the old revision directory gone, exactly the new revision is left. */
  lemma FinishBuilds(dt: DispatcherType, a: Point, c: Point, p: Point, slots: seq<Slot>, id: ProgramId, links: seq<nat>)
    requires Coherent(dt, a) && |links| == |slots|
    requires Staged(a, c, NextRevision(a.snap), slots, id, links) && SameObjects(p, c)
    ensures Built(Tidied(a, p), NextRevision(a.snap), id, slots, links) && FreshIds(Tidied(a, p))
  {
    TidiedDispatcher(dt, a, c, p, slots, id, links);
    TidiedPins(dt, a, c, p, slots, id, links);
    hide Coherent, ConfigOf, Filled, Released;
  }

  /** The filters after a TC swap. */
  function SwappedFilters(a: Point, h: Handle, id: ProgramId): map<Handle, ProgramId> {
    a.kernel.filters[h := id] - (if a.snap.Some? then {a.snap.value.filterHandle} else {})
  }

  /** The filters after a TC rebuild could not persist: the new filter is removed, then the old one is
      created again under its recorded handle if its dispatcher is still pinned. */
  function RestoredFilters(a: Point, h: Handle, id: ProgramId): map<Handle, ProgramId> {
    var cleared := SwappedFilters(a, h, id) - {h};
    if a.snap.Some? && a.snap.value.revision in a.fs.progPins
    then cleared[a.snap.value.filterHandle := a.fs.progPins[a.snap.value.revision]] else cleared
  }

  /** Only the new dispatcher and the stored one may be filtered to. */
  ghost predicate OldOrNewFilters(a: Point, filters: map<Handle, ProgramId>, id: ProgramId) {
    forall h :: h in filters ==>
      filters[h] == id || (a.snap.Some? && filters[h] == a.snap.value.programId && filters[h] in a.kernel.progs)
  }

  lemma TcFilters(dt: DispatcherType, a: Point, h: Handle, id: ProgramId)
    requires Coherent(dt, a) && !dt.XDP? && h !in a.kernel.filters
    ensures OldOrNewFilters(a, a.kernel.filters[h := id], id)
    ensures forall x :: x in SwappedFilters(a, h, id) ==> SwappedFilters(a, h, id)[x] == id
    ensures OldOrNewFilters(a, SwappedFilters(a, h, id) - {h}, id)
    ensures OldOrNewFilters(a, RestoredFilters(a, h, id), id)
    ensures a.kernel.filters != map[] ==> SwappedFilters(a, h, id) != map[]
    ensures Refiltered(a, RestoredFilters(a, h, id))
  {
    if a.kernel.filters != map[] {
      assert h in SwappedFilters(a, h, id);
    }
  }

  /** A point that keeps the stored dispatcher as a has it, and runs it or the finished new one, is whole. */
  lemma TcWhole(dt: DispatcherType, a: Point, h: Point, slots: seq<Slot>, id: ProgramId)
    requires !dt.XDP? && |slots| <= MAX_PROGRAMS
    requires h.kernel.xdpLink.None? && OldOrNewFilters(a, h.kernel.filters, id)
    requires id in h.kernel.progs && h.kernel.progs[id] == Finished(slots)
    requires (exists x :: x in h.kernel.filters && h.kernel.filters[x] != id) ==> KeepsProgs(a, h)
    ensures Whole(dt, a, slots, h)
  {}

  lemma StagedTcWhole(dt: DispatcherType, a: Point, c: Point, p: Point, slots: seq<Slot>, id: ProgramId, links: seq<nat>)
    requires !dt.XDP? && Coherent(dt, a) && |links| == |slots|
    requires Staged(a, c, NextRevision(a.snap), slots, id, links) && SameObjects(p, c)
    requires p.kernel.xdpLink == c.kernel.xdpLink && OldOrNewFilters(a, p.kernel.filters, id)
    ensures Whole(dt, a, slots, p)
    ensures (forall x :: x in p.kernel.filters ==> p.kernel.filters[x] == id) ==> Whole(dt, a, slots, Tidied(a, p))
  {
    TidiedDispatcher(dt, a, c, p, slots, id, links);
    TidiedAttachment(a, p);
    assert c.kernel.xdpLink.None?;
    hide Tidied, ConfigOf, Filled, Coherent;
    TcWhole(dt, a, p, slots, id);
    if forall x :: x in p.kernel.filters ==> p.kernel.filters[x] == id {
      TcWhole(dt, a, Tidied(a, p), slots, id);
    }
  }

  /** Staging does not depend on the filters. */
  lemma StagedRefilter(
      a: Point, c: Point, rev: Revision, slots: seq<Slot>, id: ProgramId, links: seq<nat>, filters: map<Handle, ProgramId>)
    requires Staged(a, c, rev, slots, id, links)
    ensures Residue(WithFilters(a, filters), WithFilters(c, filters), rev, id, 0, |links|)
  {
    var a', c' := WithFilters(a, filters), WithFilters(c, filters);
    assert SameService(a', c') by {
      assert KeepsProgs(a', c');
    }
  }

  lemma SwappedOldOrNew(a: Point, filters: map<Handle, ProgramId>, id: ProgramId)
    requires forall x :: x in filters ==> filters[x] == id
    ensures OldOrNewFilters(a, filters, id)
  {}

  lemma IsSwapped(dt: DispatcherType, a: Point, p: Point)
    requires !dt.XDP? && p.snap.Some? && p.snap.value.filterHandle != 0 && p.snap.value.filterHandle !in a.kernel.filters
    requires p.kernel.xdpLink == a.kernel.xdpLink
    requires p.kernel.filters == SwappedFilters(a, p.snap.value.filterHandle, p.snap.value.programId)
    ensures Swapped(dt, a, p, p.snap.value)
  {}

  lemma PinsKept(dt: DispatcherType, a: Point, c: Point, slots: seq<Slot>, id: ProgramId, links: seq<nat>)
    requires Coherent(dt, a) && Staged(a, c, NextRevision(a.snap), slots, id, links)
    ensures a.snap.Some? ==>
              var r := a.snap.value.revision;
              (r in c.fs.progPins <==> r in a.fs.progPins) && (r in a.fs.progPins ==> c.fs.progPins[r] == a.fs.progPins[r])
  {}

  /** What TcFilters says of the restored filters. */
  ghost predicate Refiltered(a: Point, filters: map<Handle, ProgramId>) {
    filters == a.kernel.filters ||
    (a.snap.Some? && a.kernel.filters == map[] && a.snap.value.revision in a.fs.progPins &&
     filters == map[a.snap.value.filterHandle := a.fs.progPins[a.snap.value.revision]])
  }

  lemma RefilteredCoherent(dt: DispatcherType, a: Point, filters: map<Handle, ProgramId>)
    requires !dt.XDP? && Coherent(dt, a) && Refiltered(a, filters)
    ensures Coherent(dt, WithFilters(a, filters))
  {
    assert RolledBack(dt, a, WithFilters(a, filters));
    RolledBackCoherent(dt, a, WithFilters(a, filters));
  }

  lemma RefilteredRollback(dt: DispatcherType, a: Point, filters: map<Handle, ProgramId>, b: Point)
    requires !dt.XDP? && Refiltered(a, filters) && Restored(WithFilters(a, filters), b)
    ensures RolledBack(dt, a, b)
  {}

  lemma WholeRefilter(dt: DispatcherType, a: Point, filters: map<Handle, ProgramId>, slots: seq<Slot>, h: Point)
    requires !dt.XDP? && |slots| <= MAX_PROGRAMS && Whole(dt, WithFilters(a, filters), slots, h)
    ensures Whole(dt, a, slots, h)
  {}

  lemma XdpWhole(dt: DispatcherType, a: Point, h: Point, slots: seq<Slot>, id: ProgramId)
    requires dt.XDP? && |slots| <= MAX_PROGRAMS
    requires h.kernel.xdpLink == Some(id) && h.kernel.filters == map[]
    requires id in h.kernel.progs && h.kernel.progs[id] == Finished(slots)
    ensures Whole(dt, a, slots, h)
  {
    assert Running(h) == {Finished(slots)};
  }

  lemma StagedXdpWhole(dt: DispatcherType, a: Point, c: Point, p: Point, slots: seq<Slot>, id: ProgramId, links: seq<nat>)
    requires dt.XDP? && Coherent(dt, a) && |links| == |slots|
    requires Staged(a, c, NextRevision(a.snap), slots, id, links) && SameObjects(p, c)
    requires p.kernel.xdpLink == Some(id) && p.kernel.filters == c.kernel.filters
    ensures Whole(dt, a, slots, p) && Whole(dt, a, slots, Tidied(a, p))
  {
    TidiedDispatcher(dt, a, c, p, slots, id, links);
    assert c.kernel.filters == map[];
    hide Tidied, ConfigOf, Filled;
    XdpWhole(dt, a, p, slots, id);
    TidiedAttachment(a, p);
    XdpWhole(dt, a, Tidied(a, p), slots, id);
  }

  lemma TidiedAttachment(a: Point, p: Point)
    ensures var q := Tidied(a, p);
            q.snap == p.snap && q.kernel.xdpLink == p.kernel.xdpLink && q.kernel.filters == p.kernel.filters
  {}

  lemma Commits(
      dt: DispatcherType, a: Point, c: Point, p: Point, slots: seq<Slot>, id: ProgramId, links: seq<nat>, h: Handle,
      next: LinkId)
    requires Coherent(dt, a) && |links| == |slots|
    requires Staged(a, c, NextRevision(a.snap), slots, id, links) && SameObjects(p, c)
    requires CanPersist(dt, NextRevision(a.snap), slots)
    requires p.snap == Some(Snapshot(NextRevision(a.snap), id, h, Complete(slots, links, next)))
    requires Swapped(dt, a, p, p.snap.value)
    ensures Committed(dt, a, Tidied(a, p), slots, next)
  {
    FinishBuilds(dt, a, c, p, slots, id, links);
    TidiedAttachment(a, p);
    hide Tidied, Coherent, Staged, Built;
    assert KernelLinks(p.snap.value.members) == links;
  }

  lemma CoherentXdp(dt: DispatcherType, a: Point)
    requires Coherent(dt, a)
    ensures FreshIds(a)
    ensures dt.XDP? ==> a.kernel.filters == map[]
    ensures !dt.XDP? ==> a.kernel.xdpLink.None?
  {}

  /** An attached XDP link points at the program pinned for the stored revision. */
  lemma XdpLinkPinned(dt: DispatcherType, a: Point)
    requires dt.XDP? && Coherent(dt, a)
    ensures a.snap.Some? && a.kernel.xdpLink.Some? ==>
              var rev := a.snap.value.revision;
              rev in a.fs.progPins && a.kernel.xdpLink == Some(a.fs.progPins[rev])
  {}

  /** What a rebuild needs besides calls that do not fail: a snapshot the store takes, and for XDP a link where the
      row says there is one, for TC a handle from the kernel that is free. */
  ghost predicate CanRebuild(dt: DispatcherType, a: Point, slots: seq<Slot>, pick: Handle) {
    && CanPersist(dt, NextRevision(a.snap), slots)
    && if dt.XDP? then a.kernel.xdpLink.None? <==> a.snap.None? else CanPick(a, pick)
  }

  ghost predicate CanPick(a: Point, pick: Handle) {
    pick != 0 && pick !in a.kernel.filters
  }

  /** The attachment can be swapped and the 32-bit revision number has not run out. */
  ghost predicate CanSwap(dt: DispatcherType, a: Point, pick: Handle) {
    && (a.snap.None? || a.snap.value.revision < 0xFFFF_FFFF)
    && if dt.XDP? then a.kernel.xdpLink.None? <==> a.snap.None? else CanPick(a, pick)
  }

  /** What an attach needs besides calls that do not fail. */
  ghost predicate CanAttach(dt: DispatcherType, a: Point, ext: Ext, pick: Handle) {
    |Members(a)| < MAX_PROGRAMS && Decodable(dt, ext.proceedOn) && CanSwap(dt, a, pick)
  }

  ghost predicate AllDecodable(dt: DispatcherType, slots: seq<Slot>) {
    forall i :: 0 <= i < |slots| ==> Decodable(dt, slots[i].ext.proceedOn)
  }

  lemma SortDecodable(dt: DispatcherType, slots: seq<Slot>)
    ensures AllDecodable(dt, Sort(slots)) <==> AllDecodable(dt, slots)
  {
    hide Decodable, Sort;
    SortSorts(slots);
    forall x ensures x in Sort(slots) <==> x in slots {
      assert x in Sort(slots) <==> x in multiset(Sort(slots));
    }
    assert AllDecodable(dt, slots) <==> forall x :: x in slots ==> Decodable(dt, x.ext.proceedOn);
    assert AllDecodable(dt, Sort(slots)) <==> forall x :: x in Sort(slots) ==> Decodable(dt, x.ext.proceedOn);
  }

  lemma AttachRebuilds(dt: DispatcherType, a: Point, ext: Ext, metadata: map<string, string>, pick: Handle)
    requires Coherent(dt, a) && |Members(a)| < MAX_PROGRAMS
    ensures CanRebuild(dt, a, AttachSlots(a, ext, metadata), pick) <==> CanAttach(dt, a, ext, pick)
  {
    hide Decodable, Sort;
    var all := SlotsOf(Members(a)) + [Slot(ext, None, metadata)];
    SortDecodable(dt, all);
    assert AllDecodable(dt, SlotsOf(Members(a)));
    assert AllDecodable(dt, all) <==> Decodable(dt, ext.proceedOn) by {
      assert all[|Members(a)|].ext == ext;
    }
    RevisionLeft(dt, a);
    assert CanPersist(dt, NextRevision(a.snap), Sort(all)) <==> NextRevision(a.snap) >= 1 && AllDecodable(dt, Sort(all));
  }

  /** Whether a detach ends with the dispatcher removed: no member is left, or the namespace is gone. */
  predicate Empties(members: seq<Member>, linkId: LinkId, netnsGone: bool) {
    Others(members, linkId) == [] || netnsGone
  }

  /** What the rebuild of a detach needs besides calls that do not fail. */
  ghost predicate CanDetach(dt: DispatcherType, a: Point, linkId: LinkId, netnsGone: bool, pick: Handle) {
    Empties(Members(a), linkId, netnsGone) || CanSwap(dt, a, pick)
  }

  lemma DetachRebuilds(dt: DispatcherType, a: Point, linkId: LinkId, pick: Handle)
    requires Coherent(dt, a)
    ensures |DetachSlots(Members(a), linkId)| == |Others(Members(a), linkId)| <= MAX_PROGRAMS
    ensures CanRebuild(dt, a, DetachSlots(Members(a), linkId), pick) <==> CanSwap(dt, a, pick)
  {
    hide Decodable, Sort;
    var rest := Others(Members(a), linkId);
    SortDecodable(dt, BareSlots(rest));
    forall i | 0 <= i < |rest| ensures Decodable(dt, rest[i].ext.proceedOn) {
      assert rest[i] in Members(a);
    }
    assert AllDecodable(dt, BareSlots(rest));
    RevisionLeft(dt, a);
    assert CanPersist(dt, NextRevision(a.snap), Sort(BareSlots(rest))) <==>
           NextRevision(a.snap) >= 1 && AllDecodable(dt, Sort(BareSlots(rest)));
  }

  lemma StagedPin(a: Point, c: Point, rev: Revision, slots: seq<Slot>, id: ProgramId, links: seq<nat>)
    requires Staged(a, c, rev, slots, id, links)
    ensures SameService(a, c) && rev in c.fs.progPins && c.fs.progPins[rev] == id
    ensures id !in a.kernel.progs && Residue(a, c, rev, id, 0, |links|)
    ensures c.snap == a.snap && c.kernel.xdpLink == a.kernel.xdpLink && c.kernel.filters == a.kernel.filters
  {}

  lemma RestoredRollsBack(dt: DispatcherType, a: Point, b: Point)
    requires Restored(a, b)
    ensures RolledBack(dt, a, b)
  {}

  lemma SuffixSame(dt: DispatcherType, a: Point, slots: seq<Slot>, history: seq<Point>, from: nat)
    requires Coherent(dt, a) && |slots| <= MAX_PROGRAMS
    requires forall i :: from <= i < |history| ==> SameService(a, history[i])
    ensures forall i :: from <= i < |history| ==> Whole(dt, a, slots, history[i])
  {
    forall i | from <= i < |history| ensures Whole(dt, a, slots, history[i]) {
      SameServiceWhole(dt, a, slots, history[i]);
    }
  }

  lemma KeptSame(dt: DispatcherType, a: Point)
    requires Coherent(dt, a)
    ensures RolledBack(dt, a, a) && |Members(a)| <= MAX_PROGRAMS
  {}

  /** Once the attachment is gone, dropping the stored revision's pins leaves none. */
  lemma RemovedAll(dt: DispatcherType, a: Point, p: Point)
    requires Coherent(dt, a) && a.snap.Some? && Detached(p)
    requires p.snap == a.snap && SameObjects(p, a)
    ensures Removed(a, RemoveRevDir(RemoveProgPin(p, a.snap.value.revision), a.snap.value.revision))
  {
    hide RowOk, ConfigOf, Released;
    var s := a.snap.value;
    var b := RemoveRevDir(RemoveProgPin(p, s.revision), s.revision);
    assert b.fs.progPins == map[];
    assert b.fs.linkPins == map[];
  }

  lemma StoredPosition(dt: DispatcherType, a: Point, pos: nat)
    requires Coherent(dt, a) && a.snap.Some? && pos < |a.snap.value.members|
    ensures a.snap.value.members[pos].position == pos
  {}

  /** What a committed rebuild stored for slot k, and under which revision. */
  lemma CommittedMember(dt: DispatcherType, a: Point, b: Point, slots: seq<Slot>, next: LinkId, k: nat)
    requires Coherent(dt, a) && Committed(dt, a, b, slots, next) && k < |slots|
    ensures b.snap.Some? && |b.snap.value.members| == |slots|
    ensures b.snap.value.members[k].linkId == MemberLinkId(slots, k, next) && Decodable(dt, slots[k].ext.proceedOn)
    ensures b.snap.value.revision == if a.snap.None? then 1 else a.snap.value.revision + 1
  {
    hide Coherent, Decodable, MemberLinkId;
    OneMoreRevision(dt, a, b, slots, next);
  }

  lemma NoHistory(dt: DispatcherType, a: Point, slots: seq<Slot>)
    requires |slots| <= MAX_PROGRAMS
    ensures AllWhole(dt, a, slots, [])
  {}

  lemma DetachFits(dt: DispatcherType, a: Point, linkId: LinkId)
    requires Coherent(dt, a)
    ensures |DetachSlots(Members(a), linkId)| <= MAX_PROGRAMS
  {}

  lemma SameServiceSelf(dt: DispatcherType, a: Point, slots: seq<Slot>)
    requires Coherent(dt, a) && |slots| <= MAX_PROGRAMS
    ensures Whole(dt, a, slots, a)
  {
    SameServiceWhole(dt, a, slots, a);
  }

  lemma DetachCounts(rest: seq<Member>)
    ensures CountNew(Sort(BareSlots(rest))) == 0
  {
    SortAttached(BareSlots(rest));
    CountNewAttached(Sort(BareSlots(rest)));
  }

  /** The in-place filter of rebuildDispatcherForDetach. */
  method Exclude(members: seq<Member>, linkId: LinkId) returns (rest: seq<Member>)
    ensures rest == Others(members, linkId)
  {
    rest := [];
    for i := 0 to |members|
      invariant rest == Others(members[..i], linkId)
    {
      assert members[..i + 1][..i] == members[..i];
      if members[i].linkId != linkId {
        rest := rest + [members[i]];
      }
    }
    assert members[..|members|] == members;
  }
}
