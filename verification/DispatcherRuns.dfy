/** Every run of dispatcher attaches and detaches, over all attach points, with failures anywhere. */
module DispatcherRuns {
  import opened Options
  import opened ProceedOn
  import opened Chain
  import opened RebuildSlots
  import opened AttachPoint
  import opened Coherence
  import opened RebuildSteps
  import opened Rebuild

  datatype Key = Key(dt: DispatcherType, nsid: nat, ifindex: nat)

  /** All attach points and the store's next link ID. */
  datatype System = System(points: map<Key, Point>, nextLink: LinkId)

  /** What a caller does and whether it got an error. OtherLinks stands for the links the store numbers
      that belong to no dispatcher. */
  datatype Event =
    | AttachEvent(key: Key, ext: Ext, metadata: map<string, string>, ok: bool)
    | DetachEvent(key: Key, linkId: LinkId, netnsGone: bool, ok: bool)
    | OtherLinks(count: nat)

  function At(s: System, key: Key): Point {
    if key in s.points then s.points[key] else EmptyPoint()
  }

  function MembersAt(s: System, key: Key): seq<Member> {
    Members(At(s, key))
  }

  /** Only the event's attach point changes. */
  ghost predicate Elsewhere(s: System, key: Key, s': System) {
    forall k :: k != key ==> At(s', k) == At(s, k)
  }

  ghost predicate Step(s: System, e: Event, s': System) {
    match e
    case AttachEvent(key, ext, metadata, ok) =>
      Elsewhere(s, key, s') &&
      AttachEnds(key.dt, At(s, key), At(s', key), ext, metadata, s.nextLink, s'.nextLink, ok)
    case DetachEvent(key, linkId, netnsGone, ok) =>
      Elsewhere(s, key, s') && s'.nextLink == s.nextLink &&
      DetachEnds(key.dt, At(s, key), At(s', key), linkId, netnsGone, s.nextLink, ok)
    case OtherLinks(count) => s' == s.(nextLink := s.nextLink + count)
  }

  ghost predicate Run(states: seq<System>, events: seq<Event>) {
    && |states| == |events| + 1
    && states[0] == System(map[], 1)
    && forall i :: 0 <= i < |events| ==> Step(states[i], events[i], states[i + 1])
  }

  function Begins(e: Event): set<LinkId> {
    if e.DetachEvent? then {e.linkId} else {}
  }

  /** The link IDs whose detach has been asked for. */
  function BegunIn(events: seq<Event>): set<LinkId> {
    if events == [] then {} else BegunIn(events[..|events| - 1]) + Begins(events[|events| - 1])
  }

  // The invariant.

  ghost predicate IdsBelow(members: seq<Member>, next: LinkId) {
    forall i :: 0 <= i < |members| ==> members[i].linkId < next
  }

  ghost predicate IdsApart(a: seq<Member>, b: seq<Member>) {
    forall i, j :: 0 <= i < |a| && 0 <= j < |b| ==> a[i].linkId != b[j].linkId
  }

  ghost predicate PointOk(s: System, key: Key, begun: set<LinkId>) {
    Coherent(key.dt, At(s, key)) && IdsBelow(MembersAt(s, key), s.nextLink) && StubsBegun(At(s, key), begun)
  }

  ghost predicate Invariant(s: System, begun: set<LinkId>) {
    && (forall key :: PointOk(s, key, begun))
    && (forall k1, k2 :: k1 != k2 ==> IdsApart(MembersAt(s, k1), MembersAt(s, k2)))
  }

  ghost predicate HasMember(members: seq<Member>, linkId: LinkId, ext: Ext) {
    exists m :: m in members && m.linkId == linkId && m.ext == ext
  }

  /** A member of b whose ID is older than next was in a with that ID and that extension. */
  ghost predicate NoneInvented(a: seq<Member>, b: seq<Member>, next: LinkId) {
    forall m :: m in b && m.linkId < next ==> HasMember(a, m.linkId, m.ext)
  }

  lemma SortMembership(slots: seq<Slot>)
    ensures forall x :: x in Sort(slots) <==> x in slots
  {
    SortSorts(slots);
    forall x ensures x in Sort(slots) <==> x in slots {
      assert x in multiset(Sort(slots)) <==> x in multiset(slots);
    }
  }

  lemma AttachSlotsIds(a: Point, ext: Ext, metadata: map<string, string>, next: LinkId)
    requires DistinctIds(Members(a)) && IdsBelow(Members(a), next)
    ensures Sorted(AttachSlots(a, ext, metadata)) && IdsOk(AttachSlots(a, ext, metadata), next)
  {
    var slots := SlotsOf(Members(a)) + [Slot(ext, None, metadata)];
    SortSorts(slots);
    SortKeepsIds(slots, next);
  }

  lemma SortKeepsIds(slots: seq<Slot>, next: LinkId)
    requires IdsOk(slots, next)
    ensures IdsOk(Sort(slots), next)
  {
    SortMembership(slots);
    SortSorts(slots);
    var sorted := Sort(slots);
    forall i | 0 <= i < |sorted| && sorted[i].existing.Some? ensures sorted[i].existing.value < next {
      assert sorted[i] in slots;
    }
    forall i, j | 0 <= i < j < |sorted| && sorted[i].existing.Some? && sorted[j].existing.Some?
      ensures sorted[i].existing.value != sorted[j].existing.value
    {
      if sorted[i].existing.value == sorted[j].existing.value {
        assert sorted[i] in slots && sorted[j] in slots;
        TwiceInSorted(slots, sorted, i, j);
      }
    }
  }

  lemma TwiceInSorted(slots: seq<Slot>, sorted: seq<Slot>, i: nat, j: nat)
    requires i < j < |sorted| && multiset(sorted) == multiset(slots) && sorted[i] == sorted[j]
    ensures exists p, q :: 0 <= p < q < |slots| && slots[p] == slots[q] == sorted[i]
  {
    var x := sorted[i];
    assert sorted == sorted[..j] + [x] + sorted[j + 1..];
    assert x in sorted[..j];
    assert multiset(sorted)[x] >= 2;
    TwiceIn(slots, x);
  }

  lemma {:induction false} TwiceIn(slots: seq<Slot>, x: Slot)
    requires multiset(slots)[x] >= 2
    ensures exists p, q :: 0 <= p < q < |slots| && slots[p] == slots[q] == x
  {
    var n := |slots| - 1;
    assert slots == slots[..n] + [slots[n]];
    if slots[n] == x {
      assert x in multiset(slots[..n]);
      var p :| 0 <= p < n && slots[p] == x;
      assert slots[p] == slots[n] == x;
    } else {
      TwiceIn(slots[..n], x);
      var p, q :| 0 <= p < q < n && slots[p] == slots[q] == x;
    }
  }

  lemma OthersIds(members: seq<Member>, exclude: LinkId, next: LinkId)
    requires DistinctIds(members) && IdsBelow(members, next)
    ensures DistinctIds(Others(members, exclude)) && IdsBelow(Others(members, exclude), next)
  {
    var rest := Others(members, exclude);
    forall i | 0 <= i < |rest| ensures rest[i].linkId < next {
      assert rest[i] in rest && rest[i] in members;
    }
    OthersDistinct(members, exclude);
  }

  lemma {:induction false} OthersDistinct(members: seq<Member>, exclude: LinkId)
    requires DistinctIds(members)
    ensures DistinctIds(Others(members, exclude))
  {
    if members != [] {
      var init, last := members[..|members| - 1], members[|members| - 1];
      OthersDistinct(init, exclude);
      forall m | m in Others(init, exclude) ensures m.linkId != last.linkId {
        assert m in init;
      }
    }
  }

  lemma DetachSlotsIds(members: seq<Member>, exclude: LinkId, next: LinkId)
    requires DistinctIds(members) && IdsBelow(members, next)
    ensures Sorted(DetachSlots(members, exclude)) && IdsOk(DetachSlots(members, exclude), next)
  {
    OthersIds(members, exclude, next);
    SortSorts(BareSlots(Others(members, exclude)));
    SortKeepsIds(BareSlots(Others(members, exclude)), next);
  }

  /** The members of a commit are exactly its slots, with the IDs the store gave them. */
  lemma CommittedMembers(dt: DispatcherType, a: Point, b: Point, slots: seq<Slot>, next: LinkId)
    requires Committed(dt, a, b, slots, next)
    ensures |Members(b)| == |slots|
    ensures forall i :: 0 <= i < |slots| ==>
      && Members(b)[i].ext == slots[i].ext && Members(b)[i].metadata == slots[i].metadata
      && Members(b)[i].linkId == MemberLinkId(slots, i, next)
  {
    hide Built, CanPersist, Swapped, FreshIds;
    var s := b.snap.value;
    assert s.members == Complete(slots, KernelLinks(s.members), next);
  }

  /** After an attach the members are the old ones, unchanged, and the new one under the next ID. */
  lemma AttachMembers(dt: DispatcherType, a: Point, b: Point, ext: Ext, metadata: map<string, string>, next: LinkId)
    requires Committed(dt, a, b, AttachSlots(a, ext, metadata), next)
    ensures forall m :: m in Members(b) ==>
      || (m.linkId == next && m.ext == ext && m.metadata == metadata)
      || exists o :: o in Members(a) && o.linkId == m.linkId && o.ext == m.ext && o.metadata == m.metadata
    ensures forall o :: o in Members(a) ==>
      exists m :: m in Members(b) && m.linkId == o.linkId && m.ext == o.ext && m.metadata == o.metadata
  {
    hide Committed, Sort;
    var slots, before := AttachSlots(a, ext, metadata), SlotsOf(Members(a));
    var k := CountBelow(before, ext.priority);
    AttachSlotsNew(a, ext, metadata, next);
    SortMembership(before + [Slot(ext, None, metadata)]);
    CommittedMembers(dt, a, b, slots, next);
    forall m | m in Members(b)
      ensures (m.linkId == next && m.ext == ext && m.metadata == metadata) ||
              exists o :: o in Members(a) && o.linkId == m.linkId && o.ext == m.ext && o.metadata == m.metadata
    {
      var i :| 0 <= i < |Members(b)| && Members(b)[i] == m;
      if i != k {
        assert slots[i] in slots;
        var j :| 0 <= j < |before| && before[j] == slots[i];
        assert Members(a)[j] in Members(a);
      }
    }
    forall o | o in Members(a)
      ensures exists m :: m in Members(b) && m.linkId == o.linkId && m.ext == o.ext && m.metadata == o.metadata
    {
      var j :| 0 <= j < |Members(a)| && Members(a)[j] == o;
      assert before[j] in before + [Slot(ext, None, metadata)];
      var i :| 0 <= i < |slots| && slots[i] == before[j];
      assert Members(b)[i] in Members(b);
    }
  }

  /** After a detach the members are the others with their IDs and extensions, and no metadata. */
  lemma DetachMembers(dt: DispatcherType, a: Point, b: Point, linkId: LinkId, next: LinkId)
    requires Committed(dt, a, b, DetachSlots(Members(a), linkId), next)
    ensures forall m :: m in Members(b) ==>
      m.metadata == map[] && exists o :: o in Members(a) && o.linkId == m.linkId != linkId && o.ext == m.ext
    ensures forall o :: o in Members(a) && o.linkId != linkId ==>
      exists m :: m in Members(b) && m.linkId == o.linkId && m.ext == o.ext
  {
    hide Committed, Sort;
    var rest := Others(Members(a), linkId);
    var slots := DetachSlots(Members(a), linkId);
    SortMembership(BareSlots(rest));
    SortAttached(BareSlots(rest));
    CommittedMembers(dt, a, b, slots, next);
    forall m | m in Members(b)
      ensures m.metadata == map[] && exists o :: o in Members(a) && o.linkId == m.linkId != linkId && o.ext == m.ext
    {
      var i :| 0 <= i < |Members(b)| && Members(b)[i] == m;
      assert slots[i] in slots;
      var j :| 0 <= j < |rest| && BareSlots(rest)[j] == slots[i];
      assert rest[j] in rest;
    }
    forall o | o in Members(a) && o.linkId != linkId
      ensures exists m :: m in Members(b) && m.linkId == o.linkId && m.ext == o.ext
    {
      assert o in rest;
      var j :| 0 <= j < |rest| && rest[j] == o;
      assert BareSlots(rest)[j] in BareSlots(rest);
      var i :| 0 <= i < |slots| && slots[i] == BareSlots(rest)[j];
      assert Members(b)[i] in Members(b);
    }
  }

  // One event keeps its point in order.

  lemma AttachKeeps(
      dt: DispatcherType, a: Point, b: Point, ext: Ext, metadata: map<string, string>, next: LinkId, next': LinkId, ok: bool,
      begun: set<LinkId>)
    requires Coherent(dt, a) && IdsBelow(Members(a), next) && StubsBegun(a, begun)
    requires AttachEnds(dt, a, b, ext, metadata, next, next', ok)
    ensures Coherent(dt, b) && IdsBelow(Members(b), next') && StubsBegun(b, begun)
    ensures NoneInvented(Members(a), Members(b), next)
    ensures forall m :: m in Members(a) ==> HasMember(Members(b), m.linkId, m.ext)
  {
    if ok {
      var slots := AttachSlots(a, ext, metadata);
      CoherentIds(dt, a);
      AttachSlotsIds(a, ext, metadata, next);
      AttachSlotsNew(a, ext, metadata, next);
      AttachMembers(dt, a, b, ext, metadata, next);
      CommittedCoherent(dt, a, b, slots, next);
      hide Coherent, Committed, AttachSlots;
      forall i | 0 <= i < |Members(b)| ensures Members(b)[i].linkId < next' {
        assert Members(b)[i] in Members(b);
      }
      hide StubsBegun;
      StubsMonotone(b, {}, begun);
    } else {
      RolledBackCoherent(dt, a, b);
      assert StubsBegun(b, begun);
    }
  }

  lemma CoherentIds(dt: DispatcherType, a: Point)
    requires Coherent(dt, a)
    ensures DistinctIds(Members(a))
  {}

  lemma StubsMonotone(p: Point, small: set<LinkId>, large: set<LinkId>)
    requires StubsBegun(p, small) && small <= large
    ensures StubsBegun(p, large)
  {}

  lemma BegunKeeps(dt: DispatcherType, a: Point, pos: nat, begun: set<LinkId>)
    requires Coherent(dt, a) && a.snap.Some? && pos < |Members(a)| && StubsBegun(a, begun)
    ensures Coherent(dt, Begun(a, pos)) && Begun(a, pos).snap == a.snap
    ensures StubsBegun(Begun(a, pos), begun + {Members(a)[pos].linkId})
  {
    DetachExtCoherent(dt, a, pos);
    var s, b := a.snap.value, Begun(a, pos);
    assert b.fs.progPins == a.fs.progPins;
    hide Coherent;
    forall i | 0 <= i < |s.members| && s.revision in b.fs.progPins
      ensures (s.revision, i) in b.fs.linkPins || s.members[i].linkId in begun + {s.members[pos].linkId}
    {
      assert (s.revision, i) in b.fs.linkPins <==> (s.revision, i) in a.fs.linkPins && (s.revision, i) != (s.revision, pos);
    }
  }

  lemma DetachRebuildKeeps(
      dt: DispatcherType, a: Point, b: Point, linkId: LinkId, netnsGone: bool, next: LinkId, ok: bool, begun: set<LinkId>)
    requires Coherent(dt, a) && IdsBelow(Members(a), next) && StubsBegun(a, begun) && a.snap.Some?
    requires DetachRebuildEnds(dt, a, b, linkId, netnsGone, next, ok)
    ensures Coherent(dt, b) && IdsBelow(Members(b), next) && StubsBegun(b, begun)
    ensures NoneInvented(Members(a), Members(b), next)
    ensures !netnsGone ==> forall m :: m in Members(a) && m.linkId != linkId ==> HasMember(Members(b), m.linkId, m.ext)
    ensures ok ==> forall m :: m in Members(b) ==> m.linkId != linkId
  {
    if Others(Members(a), linkId) == [] || netnsGone {
      RemovedKeeps(dt, a, b, linkId, netnsGone, next, ok, begun);
    } else if ok {
      var slots := DetachSlots(Members(a), linkId);
      CoherentIds(dt, a);
      DetachSlotsIds(Members(a), linkId, next);
      DetachMembers(dt, a, b, linkId, next);
      CommittedCoherent(dt, a, b, slots, next);
      hide Coherent, Committed, DetachSlots;
      forall i | 0 <= i < |Members(b)| ensures Members(b)[i].linkId < next {
        assert Members(b)[i] in Members(b);
        var o :| o in Members(a) && o.linkId == Members(b)[i].linkId;
      }
      hide StubsBegun;
      StubsMonotone(b, {}, begun);
    } else {
      RolledBackCoherent(dt, a, b);
      hide Coherent;
      assert StubsBegun(b, begun);
    }
  }

  lemma RemovedKeeps(
      dt: DispatcherType, a: Point, b: Point, linkId: LinkId, netnsGone: bool, next: LinkId, ok: bool, begun: set<LinkId>)
    requires Coherent(dt, a) && IdsBelow(Members(a), next) && StubsBegun(a, begun) && a.snap.Some?
    requires Others(Members(a), linkId) == [] || netnsGone
    requires (!ok && b == a) || (Removed(a, b) && (ok <==> b.snap.None?))
    ensures Coherent(dt, b) && IdsBelow(Members(b), next) && StubsBegun(b, begun)
    ensures NoneInvented(Members(a), Members(b), next)
    ensures !netnsGone ==> forall m :: m in Members(a) && m.linkId != linkId ==> HasMember(Members(b), m.linkId, m.ext)
    ensures ok ==> Members(b) == []
  {
    if !netnsGone {
      forall m | m in Members(a) ensures m.linkId == linkId {
        assert m.linkId != linkId ==> m in Others(Members(a), linkId);
      }
    }
  }

  lemma DetachKeeps(
      dt: DispatcherType, a: Point, b: Point, linkId: LinkId, netnsGone: bool, next: LinkId, ok: bool, begun: set<LinkId>)
    requires Coherent(dt, a) && IdsBelow(Members(a), next) && StubsBegun(a, begun)
    requires DetachEnds(dt, a, b, linkId, netnsGone, next, ok)
    ensures Coherent(dt, b) && IdsBelow(Members(b), next) && StubsBegun(b, begun + {linkId})
    ensures NoneInvented(Members(a), Members(b), next)
    ensures !netnsGone ==> forall m :: m in Members(a) && m.linkId != linkId ==> HasMember(Members(b), m.linkId, m.ext)
    ensures ok ==> forall m :: m in Members(b) ==> m.linkId != linkId
  {
    hide Coherent, StubsBegun, DetachRebuildEnds;
    StubsMonotone(a, begun, begun + {linkId});
    var pos := IndexOf(Members(a), linkId);
    if pos.Some? {
      BegunKeeps(dt, a, pos.value, begun);
      if DetachRebuildEnds(dt, Begun(a, pos.value), b, linkId, netnsGone, next, ok) {
        DetachRebuildKeeps(dt, Begun(a, pos.value), b, linkId, netnsGone, next, ok, begun + {linkId});
      }
    }
  }

  // Whole runs.

  /** The attach point an event touches, if any. */
  predicate Touches(e: Event, key: Key) {
    (e.AttachEvent? || e.DetachEvent?) && e.key == key
  }

  lemma StepPoint(s: System, e: Event, s': System, key: Key, begun: set<LinkId>)
    requires PointOk(s, key, begun) && Step(s, e, s')
    ensures PointOk(s', key, begun + Begins(e))
    ensures s.nextLink <= s'.nextLink
    ensures NoneInvented(MembersAt(s, key), MembersAt(s', key), s.nextLink)
    ensures !Touches(e, key) ==> At(s', key) == At(s, key)
    ensures !(e.DetachEvent? && e.key == key && e.netnsGone) ==>
              forall m :: m in MembersAt(s, key) ==>
                HasMember(MembersAt(s', key), m.linkId, m.ext) || (e.DetachEvent? && m.linkId == e.linkId)
    ensures e.DetachEvent? && e.key == key && e.ok ==> forall m :: m in MembersAt(s', key) ==> m.linkId != e.linkId
  {
    hide Coherent, StubsBegun, AttachEnds, DetachEnds;
    StubsMonotone(At(s, key), begun, begun + Begins(e));
    if Touches(e, key) {
      match e
      case AttachEvent(_, ext, metadata, ok) =>
        AttachGrows(key.dt, At(s, key), At(s', key), ext, metadata, s.nextLink, s'.nextLink, ok);
        AttachKeeps(key.dt, At(s, key), At(s', key), ext, metadata, s.nextLink, s'.nextLink, ok, begun);
        StubsMonotone(At(s', key), begun, begun + Begins(e));
      case DetachEvent(_, linkId, netnsGone, ok) =>
        DetachKeeps(key.dt, At(s, key), At(s', key), linkId, netnsGone, s.nextLink, ok, begun);
    } else {
      if e.AttachEvent? {
        AttachGrows(e.key.dt, At(s, e.key), At(s', e.key), e.ext, e.metadata, s.nextLink, s'.nextLink, e.ok);
      }
      assert At(s', key) == At(s, key);
    }
  }

  lemma AttachGrows(
      dt: DispatcherType, a: Point, b: Point, ext: Ext, metadata: map<string, string>, next: LinkId, next': LinkId, ok: bool)
    requires AttachEnds(dt, a, b, ext, metadata, next, next', ok)
    ensures next <= next'
  {}

  /** Members with an ID the store has yet to give out are only at the touched point. */
  lemma StepApart(s: System, e: Event, s': System, begun: set<LinkId>, k1: Key, k2: Key)
    requires Invariant(s, begun) && Step(s, e, s') && k1 != k2
    ensures IdsApart(MembersAt(s', k1), MembersAt(s', k2))
  {
    hide Coherent, StubsBegun, AttachEnds, DetachEnds, Step;
    assert PointOk(s, k1, begun) && PointOk(s, k2, begun);
    StepPoint(s, e, s', k1, begun);
    StepPoint(s, e, s', k2, begun);
    assert !Touches(e, k1) || !Touches(e, k2);
    assert IdsApart(MembersAt(s, k1), MembersAt(s, k2));
    var a, b := MembersAt(s', k1), MembersAt(s', k2);
    forall i, j | 0 <= i < |a| && 0 <= j < |b| ensures a[i].linkId != b[j].linkId {
      assert a[i] in a && b[j] in b;
      if a[i].linkId < s.nextLink && b[j].linkId < s.nextLink {
        var x :| x in MembersAt(s, k1) && x.linkId == a[i].linkId;
        var y :| y in MembersAt(s, k2) && y.linkId == b[j].linkId;
      }
    }
  }

  lemma StepInvariant(s: System, e: Event, s': System, begun: set<LinkId>)
    requires Invariant(s, begun) && Step(s, e, s')
    ensures Invariant(s', begun + Begins(e))
  {
    hide PointOk, Step;
    forall key ensures PointOk(s', key, begun + Begins(e)) {
      assert PointOk(s, key, begun);
      StepPoint(s, e, s', key, begun);
    }
    forall k1, k2 | k1 != k2 ensures IdsApart(MembersAt(s', k1), MembersAt(s', k2)) {
      StepApart(s, e, s', begun, k1, k2);
    }
  }

  /** Every state of every run: at each attach point the row, the attachment and the pins agree, a slot
      holds its member's program unless that member's detach was asked for, and no two members anywhere
      share a link ID. */
  lemma {:induction false} RunInvariant(states: seq<System>, events: seq<Event>, n: nat)
    requires Run(states, events) && n < |states|
    ensures Invariant(states[n], BegunIn(events[..n]))
  {
    if n > 0 {
      RunInvariant(states, events, n - 1);
      hide Invariant, Step;
      StepInvariant(states[n - 1], events[n - 1], states[n], BegunIn(events[..n - 1]));
      assert events[..n][..n - 1] == events[..n - 1];
    }
  }

  lemma {:induction false} NextLinkGrows(states: seq<System>, events: seq<Event>, i: nat, j: nat)
    requires Run(states, events) && i <= j < |states|
    ensures states[i].nextLink <= states[j].nextLink
    decreases j
  {
    if i < j {
      NextLinkGrows(states, events, i, j - 1);
      RunInvariant(states, events, j - 1);
      hide PointOk, Step;
      var key := Key(XDP, 0, 0);
      assert PointOk(states[j - 1], key, BegunIn(events[..j - 1]));
      StepPoint(states[j - 1], events[j - 1], states[j], key, BegunIn(events[..j - 1]));
    }
  }

  /** A member seen later under an ID already given out was there all along. */
  lemma {:induction false} MemberWasThere(
      states: seq<System>, events: seq<Event>, i: nat, j: nat, key: Key, linkId: LinkId, ext: Ext)
    requires Run(states, events) && i <= j < |states|
    requires HasMember(MembersAt(states[j], key), linkId, ext) && linkId < states[i].nextLink
    ensures HasMember(MembersAt(states[i], key), linkId, ext)
    decreases j
  {
    if i < j {
      RunInvariant(states, events, j - 1);
      NextLinkGrows(states, events, i, j - 1);
      hide PointOk, Step;
      assert PointOk(states[j - 1], key, BegunIn(events[..j - 1]));
      StepPoint(states[j - 1], events[j - 1], states[j], key, BegunIn(events[..j - 1]));
      MemberWasThere(states, events, i, j - 1, key, linkId, ext);
    }
  }

  /** A link ID names one extension at one attach point for ever: whenever it is seen again, however
      many rebuilds, failures, detaches and other links later, it names the same. */
  lemma LinkIdentity(
      states: seq<System>, events: seq<Event>, i: nat, j: nat, linkId: LinkId, k1: Key, e1: Ext, k2: Key, e2: Ext)
    requires Run(states, events) && i <= j < |states|
    requires HasMember(MembersAt(states[i], k1), linkId, e1)
    requires HasMember(MembersAt(states[j], k2), linkId, e2)
    ensures k1 == k2 && e1 == e2
  {
    assert |states| == |events| + 1;
    hide Run, Invariant, HasMember, BegunIn;
    RunInvariant(states, events, i);
    KnownId(states[i], BegunIn(events[..i]), k1, linkId, e1);
    MemberWasThere(states, events, i, j, k2, linkId, e2);
    OneMeaning(states[i], BegunIn(events[..i]), linkId, k1, e1, k2, e2);
  }

  lemma KnownId(s: System, begun: set<LinkId>, key: Key, linkId: LinkId, ext: Ext)
    requires Invariant(s, begun) && HasMember(MembersAt(s, key), linkId, ext)
    ensures linkId < s.nextLink
  {
    hide Coherent, StubsBegun;
    assert PointOk(s, key, begun);
  }

  /** In one state a link ID names one member. */
  lemma OneMeaning(s: System, begun: set<LinkId>, linkId: LinkId, k1: Key, e1: Ext, k2: Key, e2: Ext)
    requires Invariant(s, begun) && HasMember(MembersAt(s, k1), linkId, e1) && HasMember(MembersAt(s, k2), linkId, e2)
    ensures k1 == k2 && e1 == e2
  {
    hide Coherent, StubsBegun;
    var x :| x in MembersAt(s, k1) && x.linkId == linkId && x.ext == e1;
    var y :| y in MembersAt(s, k2) && y.linkId == linkId && y.ext == e2;
    assert k1 != k2 ==> IdsApart(MembersAt(s, k1), MembersAt(s, k2));
    assert PointOk(s, k1, begun);
    CoherentIds(k1.dt, At(s, k1));
  }

  ghost predicate Unnamed(members: seq<Member>, linkId: LinkId) {
    forall m :: m in members ==> m.linkId != linkId
  }

  /** No member anywhere carries the link ID. */
  ghost predicate Gone(s: System, linkId: LinkId) {
    forall key :: Unnamed(MembersAt(s, key), linkId)
  }

  /** No event loses a member but its own detach, or a detach that finds the network namespace gone; and
      a detach that returns without error has removed its member. */
  lemma MembersConserved(states: seq<System>, events: seq<Event>, i: nat, key: Key, m: Member)
    requires Run(states, events) && i < |events| && m in MembersAt(states[i], key)
    ensures || HasMember(MembersAt(states[i + 1], key), m.linkId, m.ext)
            || (events[i].DetachEvent? && (events[i].linkId == m.linkId || (events[i].netnsGone && events[i].key == key)))
    ensures events[i].DetachEvent? && events[i].ok && events[i].linkId == m.linkId && events[i].key == key ==>
              Gone(states[i + 1], m.linkId)
  {
    RunInvariant(states, events, i);
    var begun := BegunIn(events[..i]);
    hide Step, Coherent, StubsBegun;
    assert PointOk(states[i], key, begun);
    StepPoint(states[i], events[i], states[i + 1], key, begun);
    if events[i].DetachEvent? && events[i].ok && events[i].linkId == m.linkId && events[i].key == key {
      var s' := states[i + 1];
      forall k ensures Unnamed(MembersAt(s', k), m.linkId) {
        assert PointOk(states[i], k, begun);
        StepPoint(states[i], events[i], s', k, begun);
        assert k != key ==> IdsApart(MembersAt(states[i], key), MembersAt(states[i], k));
      }
    }
  }

  // What packets see. `env` gives each loaded program its meaning.

  function CodeAt<C>(dt: DispatcherType, env: ProgramId -> (C -> Outcome<C>), slot: Option<ProgramId>): C -> Outcome<C> {
    if slot.Some? then env(slot.value) else Stub(dt)
  }

  function Code<C>(dt: DispatcherType, env: ProgramId -> (C -> Outcome<C>), slots: seq<Option<ProgramId>>): (code: seq<C -> Outcome<C>>)
    ensures |code| == |slots|
  {
    seq(|slots|, i requires 0 <= i < |slots| => CodeAt(dt, env, slots[i]))
  }

  /** The stored members as a plain chain: member i's program with member i's proceed-on codes, the stub
      in its place once its extension link is gone. */
  function MemberChain<C>(dt: DispatcherType, env: ProgramId -> (C -> Outcome<C>), p: Point): (chain: seq<Link<C>>)
    requires p.snap.Some?
  {
    var s := p.snap.value;
    seq(|s.members|, i requires 0 <= i < |s.members| =>
      Link(CodeAt(dt, env, if (s.revision, i) in p.fs.linkPins then Some(s.members[i].ext.programId) else None),
           Codes(dt, s.members[i].ext.proceedOn)))
  }

  /** The chain of the members whose extension link is still there, up to member n. */
  function LiveChain<C>(dt: DispatcherType, env: ProgramId -> (C -> Outcome<C>), p: Point, n: nat): seq<Link<C>>
    requires p.snap.Some? && n <= |Members(p)|
  {
    if n == 0 then []
    else
      LiveChain(dt, env, p, n - 1) +
      if (p.snap.value.revision, n - 1) in p.fs.linkPins then [MemberChain(dt, env, p)[n - 1]] else []
  }

  /** The dispatcher that the interface runs is the stored one, and it means the members' chain. */
  lemma DispatcherMeansMembers<C>(dt: DispatcherType, env: ProgramId -> (C -> Outcome<C>), p: Point)
    requires Coherent(dt, p) && !Detached(p)
    ensures p.snap.Some? && AttachedTo(dt, p, p.snap.value) && p.snap.value.programId in p.kernel.progs
    ensures var d := p.kernel.progs[p.snap.value.programId];
            && |d.cfg.chainCallActions| == |d.slots| == MAX_PROGRAMS && d.cfg.numProgs == |Members(p)| <= MAX_PROGRAMS
            && LinksOf(dt, d.cfg, Code(dt, env, d.slots)) == MemberChain(dt, env, p)
  {
    hide Codes, RowOk;
    var s := p.snap.value;
    var d := p.kernel.progs[s.programId];
    assert Pinned(p, s);
    var chain := LinksOf(dt, d.cfg, Code(dt, env, d.slots));
    forall i | 0 <= i < |s.members| ensures chain[i] == MemberChain(dt, env, p)[i] {
      assert d.cfg.chainCallActions[i] == s.members[i].ext.proceedOn;
    }
  }

  /** While every missing member's codes hold dispatcher_return, a half-done detach is invisible: the
      verdicts are those of the members that are still attached. */
  lemma {:induction false} StubsInvisible<C>(
      dt: DispatcherType, env: ProgramId -> (C -> Outcome<C>), p: Point, n: nat, rest: seq<Link<C>>, ctx: C)
    requires p.snap.Some? && n <= |Members(p)|
    requires forall i :: 0 <= i < n && (p.snap.value.revision, i) !in p.fs.linkPins ==>
               DispatcherReturn(dt) in Codes(dt, Members(p)[i].ext.proceedOn)
    ensures RunChain(dt, MemberChain(dt, env, p)[..n] + rest, ctx) == RunChain(dt, LiveChain(dt, env, p, n) + rest, ctx)
  {
    hide Codes, RunChain;
    var chain := MemberChain(dt, env, p);
    if n == 0 {
      assert chain[..0] == [];
    } else {
      var last := chain[n - 1];
      var init, live := chain[..n - 1], LiveChain(dt, env, p, n - 1);
      assert chain[..n] + rest == init + ([last] + rest);
      if (p.snap.value.revision, n - 1) in p.fs.linkPins {
        StubsInvisible(dt, env, p, n - 1, [last] + rest, ctx);
        assert live + [last] + rest == live + ([last] + rest);
      } else {
        assert chain[..n] + rest == init + [last] + rest;
        StubEffect(dt, init, last.codes, rest, ctx);
        StubsInvisible(dt, env, p, n - 1, rest, ctx);
        assert live + [] == live;
      }
    }
  }

  /** In every run, the verdict of an attached dispatcher on every packet is that of the stored members
      run in priority order, going on exactly on the codes each one proceeds on; and while each member
      whose detach failed half-way proceeds on dispatcher_return, that of the members still attached. */
  lemma RunVerdict<C>(
      states: seq<System>, events: seq<Event>, n: nat, key: Key, env: ProgramId -> (C -> Outcome<C>), ctx: C)
    requires Run(states, events) && n < |states| && !Detached(At(states[n], key))
    ensures var p := At(states[n], key);
            && p.snap.Some? && 1 <= |Members(p)| <= MAX_PROGRAMS && PriorityAscending(Members(p))
            && AttachedTo(key.dt, p, p.snap.value) && p.snap.value.programId in p.kernel.progs
            && var d := p.kernel.progs[p.snap.value.programId];
            && d.cfg.numProgs <= |d.cfg.chainCallActions| && d.cfg.numProgs <= |d.slots|
            && RunChain(key.dt, LinksOf(key.dt, d.cfg, Code(key.dt, env, d.slots)), ctx) ==
               RunChain(key.dt, MemberChain(key.dt, env, p), ctx)
            && (forall i :: 0 <= i < |Members(p)| && (p.snap.value.revision, i) !in p.fs.linkPins ==>
                  Members(p)[i].linkId in BegunIn(events[..n]))
            && ((forall i :: 0 <= i < |Members(p)| && (p.snap.value.revision, i) !in p.fs.linkPins ==>
                   DispatcherReturn(key.dt) in Codes(key.dt, Members(p)[i].ext.proceedOn)) ==>
                RunChain(key.dt, LinksOf(key.dt, d.cfg, Code(key.dt, env, d.slots)), ctx) ==
                RunChain(key.dt, LiveChain(key.dt, env, p, |Members(p)|), ctx))
  {
    RunInvariant(states, events, n);
    hide Codes, RunChain, LinksOf, Run, BegunIn;
    var p := At(states[n], key);
    assert PointOk(states[n], key, BegunIn(events[..n]));
    DispatcherMeansMembers(key.dt, env, p);
    assert Pinned(p, p.snap.value);
    hide Coherent, Invariant, Pinned;
    var chain, live := MemberChain(key.dt, env, p), LiveChain(key.dt, env, p, |Members(p)|);
    assert chain[..|Members(p)|] + [] == chain && live + [] == live;
    if forall i :: 0 <= i < |Members(p)| && (p.snap.value.revision, i) !in p.fs.linkPins ==>
         DispatcherReturn(key.dt) in Codes(key.dt, Members(p)[i].ext.proceedOn) {
      StubsInvisible(key.dt, env, p, |Members(p)|, [], ctx);
    }
  }

  // The chain that a rebuild's slots stand for.

  function SlotChain<C>(dt: DispatcherType, env: ProgramId -> (C -> Outcome<C>), slots: seq<Slot>): (chain: seq<Link<C>>) {
    seq(|slots|, i requires 0 <= i < |slots| => Link(env(slots[i].ext.programId), Codes(dt, slots[i].ext.proceedOn)))
  }

  lemma FinishedMeansSlots<C>(dt: DispatcherType, env: ProgramId -> (C -> Outcome<C>), slots: seq<Slot>)
    requires |slots| <= MAX_PROGRAMS
    ensures var d := Finished(slots);
            && d.cfg.numProgs <= |d.cfg.chainCallActions| && d.cfg.numProgs <= |d.slots|
            && LinksOf(dt, d.cfg, Code(dt, env, d.slots)) == SlotChain(dt, env, slots)
  {
    hide Codes;
  }

  /** The verdict of a dispatcher. */
  ghost predicate Gives<C(!new)>(
      dt: DispatcherType, env: ProgramId -> (C -> Outcome<C>), d: Dispatcher, chain: seq<Link<C>>)
  {
    && d.cfg.numProgs <= |d.cfg.chainCallActions| && d.cfg.numProgs <= |d.slots|
    && forall ctx :: RunChain(dt, LinksOf(dt, d.cfg, Code(dt, env, d.slots)), ctx) == RunChain(dt, chain, ctx)
  }

  /** In every state on the way of a rebuild of an attached dispatcher, whatever runs gives on every packet the
      old chain's verdict or the new one's; for XDP exactly one dispatcher runs. */
  lemma WholeVerdict<C(!new)>(
      dt: DispatcherType, env: ProgramId -> (C -> Outcome<C>), a: Point, slots: seq<Slot>, h: Point)
    requires Coherent(dt, a) && !Detached(a) && |slots| <= MAX_PROGRAMS && Whole(dt, a, slots, h)
    ensures a.snap.Some?
    ensures forall d :: d in Running(h) ==>
              Gives(dt, env, d, MemberChain(dt, env, a)) || Gives(dt, env, d, SlotChain(dt, env, slots))
    ensures dt.XDP? ==> exists d :: Running(h) == {d}
  {
    hide RunChain, LinksOf, Codes;
    DispatcherMeansMembers(dt, env, a);
    FinishedMeansSlots(dt, env, slots);
    hide Coherent, Finished;
    var stored := a.kernel.progs[a.snap.value.programId];
    assert Gives(dt, env, stored, MemberChain(dt, env, a)) && Gives(dt, env, Finished(slots), SlotChain(dt, env, slots));
    RunsStored(dt, a);
  }

  lemma RunsStored(dt: DispatcherType, a: Point)
    requires a.snap.Some? && AttachedTo(dt, a, a.snap.value) && a.snap.value.programId in a.kernel.progs
    ensures Running(a) == Stored(a) == {a.kernel.progs[a.snap.value.programId]}
  {
    var id := a.snap.value.programId;
    assert dt.XDP? || a.kernel.filters.Values == {id} by {
      if !dt.XDP? { assert a.kernel.filters[a.snap.value.filterHandle] == id; }
    }
  }

  // Two detaches.

  function NotLink(linkId: LinkId): Slot -> bool {
    (s: Slot) => s.existing != Some(linkId)
  }

  lemma {:induction false} OthersSelect(members: seq<Member>, linkId: LinkId)
    ensures BareSlots(Others(members, linkId)) == Select(BareSlots(members), NotLink(linkId))
  {
    if members == [] {
      SelectEmpty(NotLink(linkId));
      assert BareSlots(members) == [];
    } else {
      var init, last := members[..|members| - 1], members[|members| - 1];
      OthersSelect(init, linkId);
      assert BareSlots(members) == BareSlots(init) + [SlotOf(last, map[])];
      SelectAppend(BareSlots(init), SlotOf(last, map[]), NotLink(linkId));
    }
  }

  /** After a successful detach the members are the slots of its rebuild, or none. */
  lemma DetachedSlots(dt: DispatcherType, a: Point, b: Point, linkId: LinkId, next: LinkId)
    requires DetachEnds(dt, a, b, linkId, false, next, true)
    ensures BareSlots(Members(b)) == DetachSlots(Members(a), linkId)
  {
    hide Committed, Removed, Sort, Others;
    var pos, slots := IndexOf(Members(a), linkId).value, DetachSlots(Members(a), linkId);
    assert Members(Begun(a, pos)) == Members(a);
    if Others(Members(a), linkId) == [] {
      SortShort([]);
      assert BareSlots([]) == [];
    } else {
      CommittedMembers(dt, Begun(a, pos), b, slots, next);
      BareSorted(Others(Members(a), linkId));
      assert BareSlots(Members(b)) == slots;
    }
  }

  lemma BareSorted(members: seq<Member>)
    ensures forall i :: 0 <= i < |members| ==>
              Sort(BareSlots(members))[i].existing.Some? && Sort(BareSlots(members))[i].metadata == map[]
  {
    SortMembership(BareSlots(members));
    forall i | 0 <= i < |members|
      ensures Sort(BareSlots(members))[i].existing.Some? && Sort(BareSlots(members))[i].metadata == map[]
    {
      assert Sort(BareSlots(members))[i] in BareSlots(members);
    }
  }

  /** Detaching x and then y, or y and then x, ends with the same members in the same order, under the same link
      IDs, and so with the same chain. */
  lemma DetachOrderFree(
      dt: DispatcherType, a: Point, withoutX: Point, withoutXY: Point, withoutY: Point, withoutYX: Point,
      x: LinkId, y: LinkId, n1: LinkId, n2: LinkId, n3: LinkId, n4: LinkId)
    requires DetachEnds(dt, a, withoutX, x, false, n1, true) && DetachEnds(dt, withoutX, withoutXY, y, false, n2, true)
    requires DetachEnds(dt, a, withoutY, y, false, n3, true) && DetachEnds(dt, withoutY, withoutYX, x, false, n4, true)
    ensures BareSlots(Members(withoutXY)) == BareSlots(Members(withoutYX))
  {
    hide DetachEnds, DetachSlots, Others, Sort;
    DetachedTwice(dt, a, withoutX, withoutXY, x, y, n1, n2);
    DetachedTwice(dt, a, withoutY, withoutYX, y, x, n3, n4);
    DetachTwoCommutes(BareSlots(Members(a)), NotLink(x), NotLink(y));
  }

  lemma DetachedTwice(
      dt: DispatcherType, a: Point, b: Point, c: Point, x: LinkId, y: LinkId, n1: LinkId, n2: LinkId)
    requires DetachEnds(dt, a, b, x, false, n1, true) && DetachEnds(dt, b, c, y, false, n2, true)
    ensures BareSlots(Members(c)) == Sort(Select(Sort(Select(BareSlots(Members(a)), NotLink(x))), NotLink(y)))
  {
    hide DetachEnds, Others, Sort, BareSlots;
    DetachedSlots(dt, a, b, x, n1);
    DetachedSlots(dt, b, c, y, n2);
    OthersSelect(Members(a), x);
    OthersSelect(Members(b), y);
  }

  // Rows without an attachment.

  /** A row is stored and nothing is attached. */
  ghost predicate RowOnly(p: Point) {
    p.snap.Some? && Detached(p)
  }

  /** A failed detach took the attachment away and left the row. */
  ghost predicate TornDown(s: System, e: Event, s': System, key: Key) {
    && e.DetachEvent? && e.key == key && !e.ok
    && !RowOnly(At(s, key)) && RowOnly(At(s', key)) && At(s', key).snap == At(s, key).snap
  }

  lemma AttachAttaches(
      dt: DispatcherType, a: Point, b: Point, ext: Ext, metadata: map<string, string>, next: LinkId, next': LinkId, ok: bool)
    requires Coherent(dt, a) && AttachEnds(dt, a, b, ext, metadata, next, next', ok) && !RowOnly(a)
    ensures !RowOnly(b)
  {
    if ok {
      CommittedAttaches(dt, a, b, AttachSlots(a, ext, metadata), next);
    } else {
      RolledBackAttaches(dt, a, b);
    }
  }

  lemma CommittedAttaches(dt: DispatcherType, a: Point, b: Point, slots: seq<Slot>, next: LinkId)
    requires Coherent(dt, a) && Committed(dt, a, b, slots, next) && !RowOnly(a)
    ensures !RowOnly(b)
  {
    CommittedAttachment(dt, a, b, b.snap.value);
  }

  lemma RolledBackAttaches(dt: DispatcherType, a: Point, b: Point)
    requires Coherent(dt, a) && RolledBack(dt, a, b) && !RowOnly(a)
    ensures !RowOnly(b) && b.snap == a.snap
  {
    RolledBackCoherent(dt, a, b);
  }

  lemma DetachAttaches(
      dt: DispatcherType, a: Point, b: Point, linkId: LinkId, netnsGone: bool, next: LinkId, ok: bool)
    requires Coherent(dt, a) && DetachEnds(dt, a, b, linkId, netnsGone, next, ok) && !RowOnly(a)
    ensures RowOnly(b) ==> !ok && b.snap == a.snap
  {
    hide Coherent, Committed, RolledBack, Others, Sort;
    var pos := IndexOf(Members(a), linkId);
    if pos.Some? && b != a {
      var c := Begun(a, pos.value);
      DetachExtCoherent(dt, a, pos.value);
      assert !RowOnly(c) && c.snap == a.snap;
      if Others(Members(c), linkId) != [] && !netnsGone {
        if ok {
          CommittedAttaches(dt, c, b, DetachSlots(Members(c), linkId), next);
        } else {
          RolledBackAttaches(dt, c, b);
        }
      }
    }
  }

  lemma StepAttaches(s: System, e: Event, s': System, key: Key, begun: set<LinkId>)
    requires PointOk(s, key, begun) && Step(s, e, s') && !RowOnly(At(s, key))
    ensures RowOnly(At(s', key)) ==> TornDown(s, e, s', key)
  {
    hide Coherent, AttachEnds, DetachEnds, StubsBegun, IdsBelow;
    match e
    case AttachEvent(k, ext, metadata, ok) =>
      if k == key {
        AttachAttaches(key.dt, At(s, key), At(s', key), ext, metadata, s.nextLink, s'.nextLink, ok);
      }
    case DetachEvent(k, linkId, netnsGone, ok) =>
      if k == key {
        DetachAttaches(key.dt, At(s, key), At(s', key), linkId, netnsGone, s.nextLink, ok);
      }
    case OtherLinks(_) =>
  }

  /** In every run a stored row's dispatcher is attached, unless an earlier detach at that point took the
      attachment away and could not delete the row. */
  lemma {:induction false} RowOnlyAfterTearDown(states: seq<System>, events: seq<Event>, n: nat, key: Key)
    requires Run(states, events) && n < |states| && RowOnly(At(states[n], key))
    ensures exists i :: 0 <= i < n && TornDown(states[i], events[i], states[i + 1], key)
  {
    hide Invariant, RowOnly, TornDown;
    NoRowAtFirst(states, events, key);
    if n > 0 {
      if RowOnly(At(states[n - 1], key)) {
        RowOnlyAfterTearDown(states, events, n - 1, key);
      } else {
        RunInvariant(states, events, n - 1);
        PointOf(states[n - 1], BegunIn(events[..n - 1]), key);
        StepAttaches(states[n - 1], events[n - 1], states[n], key, BegunIn(events[..n - 1]));
        assert states[n] == states[(n - 1) + 1];
      }
    }
  }

  lemma NoRowAtFirst(states: seq<System>, events: seq<Event>, key: Key)
    requires Run(states, events)
    ensures !RowOnly(At(states[0], key))
  {}

  lemma PointOf(s: System, begun: set<LinkId>, key: Key)
    requires Invariant(s, begun)
    ensures PointOk(s, key, begun)
  {}

  // Revisions.

  /** A commit at this point: a successful attach, or a successful detach that leaves members. */
  ghost predicate CommitsAt(e: Event, s': System, key: Key) {
    (e.AttachEvent? || e.DetachEvent?) && e.key == key && e.ok && At(s', key).snap.Some?
  }

  /** The commits at this point since it last had no row. */
  ghost function CommitCount(states: seq<System>, events: seq<Event>, n: nat, key: Key): nat
    requires |states| == |events| + 1 && n < |states|
  {
    if n == 0 || At(states[n], key).snap.None? then 0
    else CommitCount(states, events, n - 1, key) + if CommitsAt(events[n - 1], states[n], key) then 1 else 0
  }

  lemma StepRevision(s: System, e: Event, s': System, key: Key, begun: set<LinkId>)
    requires PointOk(s, key, begun) && Step(s, e, s') && At(s', key).snap.Some?
    ensures var a, b := At(s, key).snap, At(s', key).snap.value;
            if CommitsAt(e, s', key) then b.revision == (if a.None? then 1 else a.value.revision + 1)
            else a == Some(b)
  {
    hide Coherent, Committed, StubsBegun, IdsBelow, Others, Sort;
    var a, b := At(s, key), At(s', key);
    match e
    case AttachEvent(k, ext, metadata, ok) =>
      if k == key && ok {
        OneMoreRevision(key.dt, a, b, AttachSlots(a, ext, metadata), s.nextLink);
      }
    case DetachEvent(k, linkId, netnsGone, ok) =>
      if k == key && ok {
        var pos := IndexOf(Members(a), linkId).value;
        DetachExtCoherent(key.dt, a, pos);
        RebuiltRevision(key.dt, Begun(a, pos), b, linkId, netnsGone, s.nextLink);
      }
    case OtherLinks(_) =>
  }

  /** In every run the stored revision is the number of commits at that point since it last had no row. */
  lemma {:induction false} RevisionCounts(states: seq<System>, events: seq<Event>, n: nat, key: Key)
    requires Run(states, events) && n < |states| && At(states[n], key).snap.Some?
    ensures At(states[n], key).snap.value.revision == CommitCount(states, events, n, key)
  {
    hide Invariant, CommitsAt;
    assert n > 0 by { NoRowFirst(states, events, key); }
    RunInvariant(states, events, n - 1);
    PointOf(states[n - 1], BegunIn(events[..n - 1]), key);
    assert Step(states[n - 1], events[n - 1], states[n - 1 + 1]);
    StepRevision(states[n - 1], events[n - 1], states[n], key, BegunIn(events[..n - 1]));
    if At(states[n - 1], key).snap.Some? {
      RevisionCounts(states, events, n - 1, key);
    }
  }

  lemma NoRowFirst(states: seq<System>, events: seq<Event>, key: Key)
    requires Run(states, events)
    ensures At(states[0], key).snap.None?
  {}
}
