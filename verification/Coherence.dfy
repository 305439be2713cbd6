/** What every rebuild keeps: the row, the attachment and the pins of one attach point agree. */
module Coherence {
  import opened Text
  import opened Options
  import opened ProceedOn
  import opened Chain
  import opened RebuildSlots
  import opened AttachPoint

  function SlotOf(m: Member, metadata: map<string, string>): Slot {
    Slot(m.ext, Some(m.linkId), metadata)
  }

  /** The slots an attach rebuild carries over. */
  function SlotsOf(members: seq<Member>): (slots: seq<Slot>)
    ensures |slots| == |members|
  {
    seq(|members|, i requires 0 <= i < |members| => SlotOf(members[i], members[i].metadata))
  }

  /** The slots a detach rebuild carries over: no metadata. */
  function BareSlots(members: seq<Member>): (slots: seq<Slot>)
    ensures |slots| == |members|
  {
    seq(|members|, i requires 0 <= i < |members| => SlotOf(members[i], map[]))
  }

  function KernelLinks(members: seq<Member>): (links: seq<nat>)
    ensures |links| == |members|
  {
    seq(|members|, i requires 0 <= i < |members| => members[i].kernelLink)
  }

  ghost predicate DistinctIds(members: seq<Member>) {
    forall i, j :: 0 <= i < j < |members| ==> members[i].linkId != members[j].linkId
  }

  ghost predicate PriorityAscending(members: seq<Member>) {
    forall i, j :: 0 <= i < j < |members| ==> members[i].ext.priority <= members[j].ext.priority
  }

  ghost predicate RowOk(dt: DispatcherType, s: Snapshot) {
    && 1 <= s.revision < REVISIONS && 1 <= |s.members| <= MAX_PROGRAMS
    && (forall i :: 0 <= i < |s.members| ==> s.members[i].position == i)
    && (forall i :: 0 <= i < |s.members| ==> Decodable(dt, s.members[i].ext.proceedOn))
    && DistinctIds(s.members) && PriorityAscending(s.members)
    && (dt.XDP? <==> s.filterHandle == 0)
  }

  /** The stored dispatcher is loaded and pinned with the members' masks; the slot of each pinned link
      holds that member's program and every other slot its stub. */
  ghost predicate Pinned(p: Point, s: Snapshot) {
    && p.fs.progPins == map[s.revision := s.programId]
    && s.programId in p.kernel.progs
    && |s.members| <= MAX_PROGRAMS
    && p.kernel.progs[s.programId].cfg == ConfigOf(SlotsOf(s.members))
    && |p.kernel.progs[s.programId].slots| == MAX_PROGRAMS
    && (forall k :: k in p.fs.linkPins ==>
          k.0 == s.revision && k.1 < |s.members| && p.fs.linkPins[k].target == s.programId)
    && (forall i :: 0 <= i < MAX_PROGRAMS ==>
          p.kernel.progs[s.programId].slots[i] ==
          if (s.revision, i) in p.fs.linkPins then Some(s.members[i].ext.programId) else None)
  }

  ghost predicate Unpinned(p: Point) {
    p.fs.progPins == map[] && p.fs.linkPins == map[]
  }

  /** Nothing runs on the interface. */
  ghost predicate Detached(p: Point) {
    p.kernel.xdpLink.None? && p.kernel.filters == map[]
  }

  /** The stored dispatcher, and nothing else, runs on the interface. */
  ghost predicate AttachedTo(dt: DispatcherType, p: Point, s: Snapshot) {
    if dt.XDP? then p.kernel.xdpLink == Some(s.programId) && p.kernel.filters == map[]
    else p.kernel.xdpLink.None? && p.kernel.filters == map[s.filterHandle := s.programId]
  }

  ghost predicate Coherent(dt: DispatcherType, p: Point) {
    && FreshIds(p)
    && match p.snap
       case None => Detached(p) && Unpinned(p)
       case Some(s) =>
         && RowOk(dt, s)
         && (Detached(p) || AttachedTo(dt, p, s))
         && (Pinned(p, s) || (Unpinned(p) && Detached(p)))
  }

  /** While the stored dispatcher is pinned, a member sits in its slot or its detach has begun. */
  ghost predicate StubsBegun(p: Point, begun: set<LinkId>) {
    p.snap.Some? && p.snap.value.revision in p.fs.progPins ==>
      forall i :: 0 <= i < |p.snap.value.members| ==>
        (p.snap.value.revision, i) in p.fs.linkPins || p.snap.value.members[i].linkId in begun
  }

  function EmptyPoint(): Point {
    Point(None, Kernel(map[], None, map[], 1), BpfFs(map[], map[]))
  }

  // How a rebuild ends.

  /** Nothing changed, except that a TC rollback restores the stored filter where it was missing. */
  ghost predicate RolledBack(dt: DispatcherType, a: Point, b: Point) {
    && b.snap == a.snap && b.fs == a.fs && b.kernel.xdpLink == a.kernel.xdpLink
    && KeepsProgs(a, b) && FreshIds(b)
    && (b.kernel.filters == a.kernel.filters ||
        (!dt.XDP? && a.snap.Some? && a.kernel.filters == map[] && a.snap.value.revision in a.fs.progPins &&
         b.kernel.filters == map[a.snap.value.filterHandle := a.fs.progPins[a.snap.value.revision]]))
  }

  /** The attachment after the swap. */
  ghost predicate Swapped(dt: DispatcherType, a: Point, b: Point, s: Snapshot) {
    if dt.XDP? then
      s.filterHandle == 0 && b.kernel.xdpLink == Some(s.programId) && b.kernel.filters == a.kernel.filters
    else
      && s.filterHandle != 0 && s.filterHandle !in a.kernel.filters && b.kernel.xdpLink == a.kernel.xdpLink
      && b.kernel.filters == a.kernel.filters[s.filterHandle := s.programId] -
           (if a.snap.Some? then {a.snap.value.filterHandle} else {})
  }

  /** Revision rev is loaded as dispatcher id with all its slots attached, and no other pin exists. */
  ghost predicate Built(b: Point, rev: Revision, id: ProgramId, slots: seq<Slot>, links: seq<nat>) {
    && |links| == |slots| <= MAX_PROGRAMS
    && id in b.kernel.progs
    && b.kernel.progs[id] == Dispatcher(ConfigOf(slots), Filled(slots, |slots|))
    && b.fs.progPins == map[rev := id]
    && (forall k :: k in b.fs.linkPins <==> k.0 == rev && k.1 < |links|)
    && (forall j: nat :: j < |links| ==> b.fs.linkPins[(rev, j)] == ExtLink(links[j], id))
  }

  ghost predicate Committed(dt: DispatcherType, a: Point, b: Point, slots: seq<Slot>, next: LinkId) {
    && b.snap.Some?
    && var s := b.snap.value;
       && s.revision == NextRevision(a.snap)
       && CanPersist(dt, s.revision, slots)
       && |s.members| == |slots|
       && s.members == Complete(slots, KernelLinks(s.members), next)
       && Built(b, s.revision, s.programId, slots, KernelLinks(s.members))
       && FreshIds(b)
       && Swapped(dt, a, b, s)
  }

  /** The link was detached, or not, and the dispatcher's outer attachment and pins are gone. */
  ghost predicate Removed(a: Point, b: Point) {
    Detached(b) && Unpinned(b) && FreshIds(b) && (b.snap == a.snap || b.snap.None?)
  }

  // Coherence is kept.

  lemma RolledBackCoherent(dt: DispatcherType, a: Point, b: Point)
    requires Coherent(dt, a) && RolledBack(dt, a, b)
    ensures Coherent(dt, b)
    ensures a.snap.Some? && AttachedTo(dt, a, a.snap.value) ==> AttachedTo(dt, b, b.snap.value)
    ensures a.snap.None? ==> Detached(b)
  {
    if a.snap.Some? {
      var s := a.snap.value;
      if Pinned(a, s) {
        assert b.kernel.progs[s.programId] == a.kernel.progs[s.programId];
        assert Pinned(b, s);
      } else {
        assert b.kernel.filters == a.kernel.filters;
      }
    }
  }

  /** Each slot carries a distinct link ID, older than next if it has one. */
  ghost predicate IdsOk(slots: seq<Slot>, next: LinkId) {
    && (forall i :: 0 <= i < |slots| && slots[i].existing.Some? ==> slots[i].existing.value < next)
    && (forall i, j :: 0 <= i < j < |slots| && slots[i].existing.Some? && slots[j].existing.Some? ==>
          slots[i].existing.value != slots[j].existing.value)
  }

  lemma {:induction false} CountNewMonotone(slots: seq<Slot>, i: nat, j: nat)
    requires i <= j <= |slots|
    ensures CountNew(slots[..i]) <= CountNew(slots[..j])
    ensures i < j && slots[i].existing.None? ==> CountNew(slots[..i]) < CountNew(slots[..j])
    decreases j
  {
    if i < j {
      assert slots[..j][..j - 1] == slots[..j - 1];
      CountNewMonotone(slots, i, j - 1);
    }
  }

  lemma DistinctPair(slots: seq<Slot>, i: nat, j: nat, next: LinkId)
    requires IdsOk(slots, next) && i < j < |slots|
    ensures MemberLinkId(slots, i, next) != MemberLinkId(slots, j, next)
  {
    CountNewMonotone(slots, i, j);
  }

  lemma CompletedIds(slots: seq<Slot>, links: seq<nat>, next: LinkId)
    requires |links| == |slots| && IdsOk(slots, next)
    ensures DistinctIds(Complete(slots, links, next))
    ensures forall i :: 0 <= i < |slots| ==> Complete(slots, links, next)[i].linkId < next + CountNew(slots)
  {
    var members := Complete(slots, links, next);
    forall i, j | 0 <= i < j < |slots| ensures members[i].linkId != members[j].linkId {
      DistinctPair(slots, i, j, next);
    }
    forall i | 0 <= i < |slots| ensures members[i].linkId < next + CountNew(slots) {
      assert slots[..|slots|] == slots;
      CountNewMonotone(slots, i, |slots|);
    }
  }

  /** A commit over sorted slots leaves a coherent point that runs the new dispatcher, with every slot
      filled. The one way it can run nothing is a TC commit over a row whose filter was gone and whose
      handle the kernel gave out again. */
  lemma CommittedCoherent(dt: DispatcherType, a: Point, b: Point, slots: seq<Slot>, next: LinkId)
    requires Coherent(dt, a) && Committed(dt, a, b, slots, next)
    requires 1 <= |slots| && Sorted(slots) && IdsOk(slots, next)
    ensures Coherent(dt, b)
    ensures StubsBegun(b, {})
    ensures !AttachedTo(dt, b, b.snap.value) <==>
            !dt.XDP? && a.snap.Some? && Detached(a) && a.snap.value.filterHandle == b.snap.value.filterHandle
  {
    var s := b.snap.value;
    CompletedIds(slots, KernelLinks(s.members), next);
    forall i, j | 0 <= i < j < |s.members| ensures s.members[i].ext.priority <= s.members[j].ext.priority {
      assert Le(slots[i], slots[j]);
    }
    assert ConfigOf(SlotsOf(s.members)) == ConfigOf(slots) by {
      assert seq(|slots|, i requires 0 <= i < |slots| => slots[i].ext.proceedOn) ==
             seq(|slots|, i requires 0 <= i < |slots| => SlotsOf(s.members)[i].ext.proceedOn);
    }
    assert Pinned(b, s);
    assert RowOk(dt, s);
    CommittedAttachment(dt, a, b, s);
  }

  /** A next revision is left below the largest 32-bit number. */
  lemma RevisionLeft(dt: DispatcherType, a: Point)
    requires Coherent(dt, a)
    ensures NextRevision(a.snap) >= 1 <==> (a.snap.None? || a.snap.value.revision < 0xFFFF_FFFF)
  {}

  /** A rebuild that commits raises the revision by one, from nothing to 1. */
  lemma OneMoreRevision(dt: DispatcherType, a: Point, b: Point, slots: seq<Slot>, next: LinkId)
    requires Coherent(dt, a) && Committed(dt, a, b, slots, next)
    ensures b.snap.value.revision == if a.snap.None? then 1 else a.snap.value.revision + 1
  {}

  /** The committed members run by priority; of two with the same priority the new one comes first, and of two old
      ones the one with the smaller name. */
  lemma CommittedOrder(dt: DispatcherType, a: Point, b: Point, slots: seq<Slot>, next: LinkId, i: nat, j: nat)
    requires Committed(dt, a, b, slots, next) && Sorted(slots) && i < j < |slots|
    ensures |Members(b)| == |slots|
    ensures var x, y := Members(b)[i].ext, Members(b)[j].ext;
            && x.priority <= y.priority
            && (x.priority == y.priority && slots[j].existing.None? ==> slots[i].existing.None?)
            && (x.priority == y.priority && slots[i].existing.Some? && slots[j].existing.Some? ==> !NameLess(y.name, x.name))
  {
    hide Built, CanPersist, Swapped, FreshIds;
    var members := Members(b);
    assert members == Complete(slots, KernelLinks(members), next);
    assert Le(slots[i], slots[j]);
  }

  lemma CommittedAttachment(dt: DispatcherType, a: Point, b: Point, s: Snapshot)
    requires Coherent(dt, a) && Swapped(dt, a, b, s)
    ensures AttachedTo(dt, b, s) || Detached(b)
    ensures !AttachedTo(dt, b, s) <==>
            !dt.XDP? && a.snap.Some? && Detached(a) && a.snap.value.filterHandle == s.filterHandle
    ensures AttachedTo(dt, b, s) ==> !Detached(b)
  {
    if !dt.XDP? {
      if a.snap.Some? && Detached(a) && a.snap.value.filterHandle == s.filterHandle {
        assert b.kernel.filters == map[];
      } else {
        assert b.kernel.filters == map[s.filterHandle := s.programId];
      }
      assert s.filterHandle in map[s.filterHandle := s.programId];
    }
  }

  lemma DetachExtCoherent(dt: DispatcherType, a: Point, pos: nat)
    requires Coherent(dt, a) && a.snap.Some? && pos < |a.snap.value.members|
    ensures var b := DetachExt(a, a.snap.value.revision, pos);
            && Coherent(dt, b) && b.snap == a.snap
            && b.kernel.xdpLink == a.kernel.xdpLink && b.kernel.filters == a.kernel.filters
            && forall k :: k in b.fs.linkPins <==> k in a.fs.linkPins && k != (a.snap.value.revision, pos)
  {
    var s := a.snap.value;
    var b := DetachExt(a, s.revision, pos);
    if (s.revision, pos) in a.fs.linkPins {
      assert Pinned(a, s);
      assert Pinned(b, s);
    }
  }

  // The slots of the two rebuilds.

  /** The slots of an attach rebuild, in order. */
  function AttachSlots(p: Point, ext: Ext, metadata: map<string, string>): seq<Slot> {
    Sort(SlotsOf(Members(p)) + [Slot(ext, None, metadata)])
  }

  /** The members but the excluded one. */
  function Others(members: seq<Member>, exclude: LinkId): (rest: seq<Member>)
    ensures |rest| <= |members|
    ensures forall m :: m in rest <==> m in members && m.linkId != exclude
  {
    if members == [] then []
    else
      var init, last := members[..|members| - 1], members[|members| - 1];
      assert members == init + [last];
      Others(init, exclude) + if last.linkId != exclude then [last] else []
  }

  function IndexOf(members: seq<Member>, linkId: LinkId): (r: Option<nat>)
    ensures r.Some? ==> r.value < |members| && members[r.value].linkId == linkId
    ensures r.None? ==> forall m :: m in members ==> m.linkId != linkId
  {
    if members == [] then None
    else
      var init, last := members[..|members| - 1], members[|members| - 1];
      assert members == init + [last];
      if last.linkId == linkId then Some(|members| - 1) else IndexOf(init, linkId)
  }

  /** The slots of a detach rebuild, in order. */
  function DetachSlots(members: seq<Member>, exclude: LinkId): seq<Slot> {
    Sort(BareSlots(Others(members, exclude)))
  }

  lemma {:induction false} CountNewAttached(slots: seq<Slot>)
    requires AllAttached(slots)
    ensures CountNew(slots) == 0
  {
    if slots != [] {
      CountNewAttached(slots[..|slots| - 1]);
    }
  }

  lemma {:induction false} CountNewConcat(a: seq<Slot>, b: seq<Slot>)
    ensures CountNew(a + b) == CountNew(a) + CountNew(b)
  {
    if b == [] {
      assert a + b == a;
    } else {
      CountNewConcat(a, b[..|b| - 1]);
      assert (a + b)[..|a + b| - 1] == a + b[..|b| - 1];
    }
  }

  lemma SortAttached(slots: seq<Slot>)
    requires AllAttached(slots)
    ensures AllAttached(Sort(slots))
  {
    SortSorts(slots);
    forall i | 0 <= i < |slots| ensures Sort(slots)[i].existing.Some? {
      assert Sort(slots)[i] in multiset(Sort(slots));
      assert Sort(slots)[i] in slots;
    }
  }

  /** The new slot of an attach rebuild comes right after the members of lower priority, is the only new
      one, and takes the store's next link ID. */
  lemma AttachSlotsNew(p: Point, ext: Ext, metadata: map<string, string>, next: LinkId)
    ensures var slots, k := AttachSlots(p, ext, metadata), CountBelow(SlotsOf(Members(p)), ext.priority);
            && |slots| == |Members(p)| + 1 && k < |slots| && CountNew(slots) == 1
            && slots[k] == Slot(ext, None, metadata)
            && MemberLinkId(slots, k, next) == next
            && forall i :: 0 <= i < |slots| && i != k ==> slots[i].existing.Some?
  {
    hide Sort, CountBelow, CountNew, Members;
    var members, x := SlotsOf(Members(p)), Slot(ext, None, metadata);
    var k, sorted := CountBelow(members, ext.priority), Sort(members);
    NewSlotIndex(members, x);
    SortAttached(members);
    OneNew(sorted[..k], x, sorted[k..]);
    assert AttachSlots(p, ext, metadata)[..k] == sorted[..k];
  }

  lemma OneNew(a: seq<Slot>, x: Slot, b: seq<Slot>)
    requires AllAttached(a) && AllAttached(b) && x.existing.None?
    ensures CountNew(a + [x] + b) == 1 && CountNew(a) == 0
  {
    CountNewAttached(a);
    CountNewAttached(b);
    CountNewConcat(a, [x]);
    CountNewConcat(a + [x], b);
    assert [x][..0] == [];
  }

  /** The point once the extension link of the member at pos is detached and its stub is back. */
  function Begun(a: Point, pos: nat): Point
    requires a.snap.Some?
  {
    DetachExt(a, a.snap.value.revision, pos)
  }

  /** How an attach ends. */
  ghost predicate AttachEnds(
      dt: DispatcherType, a: Point, b: Point, ext: Ext, metadata: map<string, string>, next: LinkId, next': LinkId, ok: bool)
  {
    if ok then
      && |Members(a)| < MAX_PROGRAMS && next' == next + 1
      && Committed(dt, a, b, AttachSlots(a, ext, metadata), next)
    else RolledBack(dt, a, b) && next' == next
  }

  /** How rebuildDispatcherForDetach ends. */
  ghost predicate DetachRebuildEnds(
      dt: DispatcherType, a: Point, b: Point, linkId: LinkId, netnsGone: bool, next: LinkId, ok: bool)
  {
    if Others(Members(a), linkId) == [] || netnsGone
    then (!ok && b == a) || (Removed(a, b) && (ok <==> b.snap.None?))
    else if ok then Committed(dt, a, b, DetachSlots(Members(a), linkId), next)
    else RolledBack(dt, a, b)
  }

  lemma RebuiltRevision(
      dt: DispatcherType, a: Point, b: Point, linkId: LinkId, netnsGone: bool, next: LinkId)
    requires Coherent(dt, a) && a.snap.Some? && DetachRebuildEnds(dt, a, b, linkId, netnsGone, next, true)
    ensures if Others(Members(a), linkId) == [] || netnsGone then b.snap.None?
            else b.snap.Some? && b.snap.value.revision == a.snap.value.revision + 1
  {
    if Others(Members(a), linkId) != [] && !netnsGone {
      OneMoreRevision(dt, a, b, DetachSlots(Members(a), linkId), next);
    }
  }

  /** How the detach of a dispatcher link ends: the row is unknown, the link could not be detached, or
      the stub is back in its slot and the rebuild has ended. */
  ghost predicate DetachEnds(
      dt: DispatcherType, a: Point, b: Point, linkId: LinkId, netnsGone: bool, next: LinkId, ok: bool)
  {
    match IndexOf(Members(a), linkId)
    case None => !ok && b == a
    case Some(pos) => (!ok && b == a) || DetachRebuildEnds(dt, Begun(a, pos), b, linkId, netnsGone, next, ok)
  }
}
