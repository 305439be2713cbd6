/** A successful TC attach that leaves nothing attached, by the executor itself. Coherence.CommittedCoherent says
    exactly when it happens. */
module PhantomRow {
  import opened Options
  import opened ProceedOn
  import opened Chain
  import opened RebuildSlots
  import opened AttachPoint
  import opened Coherence
  import opened RebuildSteps
  import opened Rebuild
  import opened DispatcherRuns

  const KEY := Key(TCIngress, 1, 1)
  const EXT := Ext(7, "a", "/a", 50, 0, "eth0")

  /** The tenth call is the deletion of the row in the detach below. */
  const ROW_DELETION: nat := 9

  lemma NoBitsDecodable()
    ensures Decodable(TCIngress, 0)
  {
    MaskDecodable(TCIngress, []);
  }

  /** The only member, of an attach to an empty point. */
  lemma FirstMember(p: Point, next: LinkId)
    requires AttachEnds(TCIngress, EmptyPoint(), p, EXT, map[], 1, next, true)
    ensures next == 2
    ensures |Members(p)| == 1 && IndexOf(Members(p), 1) == Some(0) && Others(Members(p), 1) == []
    ensures Coherent(TCIngress, p) && IdsBelow(Members(p), 2) && StubsBegun(p, {}) && p.snap.Some? && p.snap.value.revision == 1
  {
    AttachKeeps(TCIngress, EmptyPoint(), p, EXT, map[], 1, 2, true, {});
    AttachSlotsNew(EmptyPoint(), EXT, map[], 1);
    AttachMembers(TCIngress, EmptyPoint(), p, EXT, map[], 1);
    assert Members(p)[0] in Members(p);
    assert Members(p)[..0] == [];
  }

  /** What remains once the attachment and the pins are gone and the row is not. */
  lemma RowLeft(p: Point, q: Point)
    requires Coherent(TCIngress, p) && IdsBelow(Members(p), 2) && StubsBegun(p, {})
    requires DetachEnds(TCIngress, p, q, 1, false, 2, false) && q.snap == p.snap
    ensures Coherent(TCIngress, q) && Members(q) == Members(p) && IdsBelow(Members(q), 2)
  {
    DetachKeeps(TCIngress, p, q, 1, false, 2, false, {});
  }

  /** The second attach commits, and removes its own filter as the old one. */
  lemma NothingAttached(q: Point, b: Point, next: LinkId)
    requires Coherent(TCIngress, q) && Detached(q) && q.snap.Some? && IdsBelow(Members(q), 2)
    requires AttachEnds(TCIngress, q, b, EXT, map[], 2, next, true)
    requires b.snap.Some? && b.snap.value.filterHandle == q.snap.value.filterHandle
    ensures Detached(b) && next == 3
  {
    AttachSlotsIds(q, EXT, map[], 2);
    CommittedAttachment(TCIngress, q, b, b.snap.value);
  }

  /** Attach, then a detach whose row deletion fails. */
  method AttachAndDetach() returns (executor: Executor, ghost attached: Point)
    ensures fresh(executor) && executor.dt == TCIngress && executor.calls == 10 && executor.nextLink == 2
    ensures (forall k :: executor.faults(k) <==> k == ROW_DELETION) && forall k :: executor.handles(k) == 1
    ensures AttachEnds(TCIngress, EmptyPoint(), attached, EXT, map[], 1, 2, true)
    ensures DetachEnds(TCIngress, attached, executor.Now(), 1, false, 2, false)
    ensures Coherent(TCIngress, executor.Now()) && Detached(executor.Now()) && IdsBelow(Members(executor.Now()), 2)
    ensures executor.snap.Some? && executor.snap.value.filterHandle == 1 && executor.snap.value.revision == 1
    ensures |Members(executor.Now())| == 1
  {
    hide Coherent, AttachEnds, DetachEnds, Decodable, Unpinned, FreshIds;
    NoBitsDecodable();
    executor := new Executor(TCIngress, k => k == ROW_DELETION, k => 1, 1);
    var first := executor.Attach(EXT, map[]);
    attached := executor.Now();
    FirstMember(attached, executor.nextLink);
    assert executor.calls == 5 && executor.faults(9) && !executor.Quiet(5);
    var ok := executor.Detach(1, false);
    RowLeft(attached, executor.Now());
  }

  lemma ThreeSteps(p1: Point, p2: Point, p3: Point)
    requires AttachEnds(TCIngress, EmptyPoint(), p1, EXT, map[], 1, 2, true)
    requires DetachEnds(TCIngress, p1, p2, 1, false, 2, false)
    requires AttachEnds(TCIngress, p2, p3, EXT, map[], 2, 3, true)
    ensures Run(States(p1, p2, p3), Events())
  {
    hide AttachEnds, DetachEnds;
  }

  function States(p1: Point, p2: Point, p3: Point): seq<System> {
    [System(map[], 1), System(map[KEY := p1], 2), System(map[KEY := p2], 2), System(map[KEY := p3], 3)]
  }

  function Events(): seq<Event> {
    [AttachEvent(KEY, EXT, map[], true), DetachEvent(KEY, 1, false, false), AttachEvent(KEY, EXT, map[], true)]
  }

  /** Attach; detach whose row deletion fails; attach again. The kernel gives handle 1 to every filter, which is
      free each time. Every other call succeeds. The last attach returns success, its row is stored, and no
      filter is left. */
  method SilentAttach() returns (executor: Executor, r: Reply, ghost states: seq<System>)
    ensures fresh(executor) && executor.dt == TCIngress
    ensures (forall k :: executor.faults(k) <==> k == ROW_DELETION) && forall k :: executor.handles(k) == 1
    ensures r.Attached? && executor.snap.Some? && Detached(executor.Now())
    ensures Run(states, Events()) && At(states[3], KEY) == executor.Now()
  {
    hide Coherent, AttachEnds, DetachEnds, Decodable, Run;
    NoBitsDecodable();
    ghost var p1;
    executor, p1 := AttachAndDetach();
    ghost var p2 := executor.Now();
    r := executor.Attach(EXT, map[]);
    assert r.Attached?;
    ghost var p3 := executor.Now();
    EndsStored(p2, p3, executor.nextLink);
    NothingAttached(p2, p3, executor.nextLink);
    ThreeSteps(p1, p2, p3);
    states := States(p1, p2, p3);
  }

  lemma EndsStored(q: Point, b: Point, next: LinkId)
    requires AttachEnds(TCIngress, q, b, EXT, map[], 2, next, true)
    ensures b.snap.Some?
  {}
}
