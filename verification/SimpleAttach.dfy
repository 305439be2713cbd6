/** Attaching a program to a probe or a tracepoint, and detaching it: the link's row is written before its pin,
    so that a crash between any two steps leaves no pin that no row names. */
module SimpleAttach {

  import opened Operation
  import opened Options

  type LinkId = nat

  /** A link row; it is pending until the kernel's link id is recorded. */
  datatype Row = Row(program: nat, kernelLink: Option<nat>)

  /** The link rows, the pins under links/ by link id, the next row id (ids are never used again), and the
      plan's binding of the pending row. */
  datatype World = World(rows: map<LinkId, Row>, pins: set<LinkId>, next: LinkId, pending: Option<LinkId>)

  /** Which calls succeed. */
  datatype Calls = Calls(prepare: bool, create: bool, attach: bool, finalise: bool, undoDetach: bool, undoDelete: bool)

  ghost predicate Named(w: World) {
    forall id :: id in w.pins ==> id in w.rows
  }

  ghost predicate Valid(w: World) {
    Named(w) && forall id :: id in w.rows ==> id < w.next
  }

  // The attach plan.

  function Kept(w: World): Outcome<World> {
    Outcome(w, false)
  }

  function Prepare(c: Calls): Node<World> {
    Node(false, (w: World) => Outcome(w, c.prepare), (w: World) => [])
  }

  function CreatePending(program: nat, c: Calls): Node<World> {
    Node(false,
         (w: World) =>
           if c.create
           then Outcome(w.(rows := w.rows[w.next := Row(program, None)], next := w.next + 1, pending := Some(w.next)), true)
           else Kept(w),
         (w: World) => [DeleteRow(w.pending, c.undoDelete)])
  }

  function DeleteRow(id: Option<LinkId>, ok: bool): World -> World {
    (w: World) => if id.Some? && ok then w.(rows := w.rows - {id.value}) else w
  }

  function KernelAttach(c: Calls): Node<World> {
    Node(false,
         (w: World) => if w.pending.Some? && c.attach then Outcome(w.(pins := w.pins + {w.pending.value}), true) else Kept(w),
         (w: World) => [Unpin(w.pending, c.undoDetach)])
  }

  function Unpin(id: Option<LinkId>, ok: bool): World -> World {
    (w: World) => if id.Some? && ok then w.(pins := w.pins - {id.value}) else w
  }

  function Finalise(kernelLink: nat, c: Calls): Node<World> {
    Node(false,
         (w: World) =>
           if w.pending.Some? && w.pending.value in w.rows && c.finalise
           then Outcome(w.(rows := w.rows[w.pending.value := w.rows[w.pending.value].(kernelLink := Some(kernelLink))]), true)
           else Kept(w),
         (w: World) => [])
  }

  function AttachPlan(program: nat, kernelLink: nat, c: Calls): seq<Node<World>> {
    [Prepare(c), CreatePending(program, c), KernelAttach(c), Finalise(kernelLink, c)]
  }

  // The states on the way.

  function Pending(w: World, program: nat): World {
    w.(rows := w.rows[w.next := Row(program, None)], next := w.next + 1, pending := Some(w.next))
  }

  function Pinned(w: World, program: nat): World {
    Pending(w, program).(pins := w.pins + {w.next})
  }

  function Attached(w: World, program: nat, kernelLink: nat): World {
    Pinned(w, program).(rows := w.rows[w.next := Row(program, Some(kernelLink))])
  }

  /** The rollback from the pinned state: the pin first, then the row. */
  function Unpinned(w: World, program: nat, c: Calls): World {
    if c.undoDetach then Pinned(w, program).(pins := Pinned(w, program).pins - {w.next}) else Pinned(w, program)
  }

  function RowDeleted(w: World, id: LinkId, c: Calls): World {
    if c.undoDelete then w.(rows := w.rows - {id}) else w
  }

  function AttachTrace(w: World, program: nat, kernelLink: nat, c: Calls): Ran<World> {
    var pending, pinned := Pending(w, program), Pinned(w, program);
    if !c.prepare then Ran(false, [w, w])
    else if !c.create then Ran(false, [w, w, w])
    else if !c.attach then Ran(false, [w, w, pending, pending, RowDeleted(pending, w.next, c)])
    else if !c.finalise then
      var unpinned := Unpinned(w, program, c);
      Ran(false, [w, w, pending, pinned, pinned, unpinned, RowDeleted(unpinned, w.next, c)])
    else Ran(true, [w, w, pending, pinned, Attached(w, program, kernelLink)])
  }

  lemma AppliedOne<S>(action: S -> S, s: S)
    ensures Applied([action], s) == [action(s)]
  {
    assert [action][1..] == [];
  }

  lemma FinaliseRuns(w: World, program: nat, kernelLink: nat, c: Calls)
    ensures var pinned := Pinned(w, program);
            Perform([Finalise(kernelLink, c)], pinned) ==
            if c.finalise then Ran(true, [pinned, Attached(w, program, kernelLink)]) else Ran(false, [pinned, pinned])
  {
    var plan, pinned := [Finalise(kernelLink, c)], Pinned(w, program);
    assert plan[1..] == [];
    if c.finalise {
      assert w.rows[w.next := Row(program, None)][w.next := Row(program, Some(kernelLink))] ==
             w.rows[w.next := Row(program, Some(kernelLink))];
      assert plan[0].exec(pinned) == Outcome(Attached(w, program, kernelLink), true);
      assert Perform(plan[1..], Attached(w, program, kernelLink)) == Ran(true, [Attached(w, program, kernelLink)]);
    }
  }

  lemma KernelAttachRuns(w: World, program: nat, kernelLink: nat, c: Calls)
    ensures var pending, pinned := Pending(w, program), Pinned(w, program);
            Perform([KernelAttach(c), Finalise(kernelLink, c)], pending) ==
            if !c.attach then Ran(false, [pending, pending])
            else if !c.finalise then Ran(false, [pending, pinned, pinned, Unpinned(w, program, c)])
            else Ran(true, [pending, pinned, Attached(w, program, kernelLink)])
  {
    var plan, pending, pinned := [KernelAttach(c), Finalise(kernelLink, c)], Pending(w, program), Pinned(w, program);
    assert plan[1..] == [Finalise(kernelLink, c)];
    FinaliseRuns(w, program, kernelLink, c);
    AppliedOne(Unpin(Some(w.next), c.undoDetach), pinned);
  }

  lemma CreateRuns(w: World, program: nat, kernelLink: nat, c: Calls)
    requires c.prepare
    ensures Perform([CreatePending(program, c), KernelAttach(c), Finalise(kernelLink, c)], w) ==
            var t := AttachTrace(w, program, kernelLink, c);
            Ran(t.ok, t.trace[1..])
  {
    hide KernelAttach, Finalise, Unpinned, Attached, Applied;
    var plan := [CreatePending(program, c), KernelAttach(c), Finalise(kernelLink, c)];
    assert plan[1..] == [KernelAttach(c), Finalise(kernelLink, c)];
    KernelAttachRuns(w, program, kernelLink, c);
    if c.create {
      assert plan[0].exec(w) == Outcome(Pending(w, program), true);
      assert plan[0].undo(Pending(w, program)) == [DeleteRow(Some(w.next), c.undoDelete)];
      AppliedOne(DeleteRow(Some(w.next), c.undoDelete), Pending(w, program));
      AppliedOne(DeleteRow(Some(w.next), c.undoDelete), Unpinned(w, program, c));
    }
  }

  /** Running the plan visits exactly these states. */
  lemma AttachTraceIs(w: World, program: nat, kernelLink: nat, c: Calls)
    ensures Perform(AttachPlan(program, kernelLink, c), w) == AttachTrace(w, program, kernelLink, c)
  {
    var plan := AttachPlan(program, kernelLink, c);
    assert plan[1..] == [CreatePending(program, c), KernelAttach(c), Finalise(kernelLink, c)];
    if c.prepare {
      CreateRuns(w, program, kernelLink, c);
      assert plan[0].undo(w) == [];
    }
  }

  /** Every state of an attach names its pins, crash or failure, as long as the undo's own detach works; a
      success adds one row with its pin, a failure whose undo works adds nothing. */
  lemma AttachNamed(w: World, program: nat, kernelLink: nat, c: Calls)
    requires Valid(w)
    ensures var r := Perform(AttachPlan(program, kernelLink, c), w);
            && (c.undoDetach ==> forall t :: t in r.trace ==> Valid(t))
            && (r.ok <==> c.prepare && c.create && c.attach && c.finalise)
            && (r.ok ==> w.next !in w.rows && Last(r.trace).rows == w.rows[w.next := Row(program, Some(kernelLink))])
            && (r.ok ==> Last(r.trace).pins == w.pins + {w.next})
            && (!r.ok && c.undoDetach && c.undoDelete ==> Last(r.trace).rows == w.rows && Last(r.trace).pins == w.pins)
  {
    hide Perform;
    AttachTraceIs(w, program, kernelLink, c);
    assert w.next !in w.rows && w.next !in w.pins;
    assert w.rows[w.next := Row(program, None)] - {w.next} == w.rows;
    assert w.pins + {w.next} - {w.next} == w.pins;
  }

  /** The pin outlives its row exactly when the attach was rolled back after pinning, the detach of that rollback
      failed, and its row deletion did not. */
  lemma PinOutlivesRow(w: World, program: nat, kernelLink: nat, c: Calls)
    requires Valid(w)
    ensures Named(Last(Perform(AttachPlan(program, kernelLink, c), w).trace)) <==>
            !(c.prepare && c.create && c.attach && !c.finalise && !c.undoDetach && c.undoDelete)
  {
    hide Perform;
    AttachTraceIs(w, program, kernelLink, c);
    var t := Last(Perform(AttachPlan(program, kernelLink, c), w).trace);
    if c.prepare && c.create && c.attach && !c.finalise && !c.undoDetach && c.undoDelete {
      assert w.next in t.pins && w.next !in t.rows;
    }
  }

  // Detach.

  function Detach(id: LinkId, ok: bool): Node<World> {
    Node(false, (w: World) => Outcome(if ok then w.(pins := w.pins - {id}) else w, ok), (w: World) => [])
  }

  function Delete(id: LinkId, ok: bool): Node<World> {
    Node(false, (w: World) => if ok && id in w.rows then Outcome(w.(rows := w.rows - {id}), true) else Kept(w), (w: World) => [])
  }

  /** Detach first, then delete the row; neither is undone. */
  function DetachPlan(id: LinkId, detach: bool, delete: bool): seq<Node<World>> {
    [Detach(id, detach), Delete(id, delete)]
  }

  /** A row that is not there cannot be deleted. */
  lemma DeleteRuns(w: World, id: LinkId, delete: bool)
    ensures Perform([Delete(id, delete)], w) ==
            if delete && id in w.rows then Ran(true, [w, w.(rows := w.rows - {id})]) else Ran(false, [w, w])
  {
    var plan := [Delete(id, delete)];
    assert plan[1..] == [];
    assert Perform(plan[1..], w.(rows := w.rows - {id})) == Ran(true, [w.(rows := w.rows - {id})]);
  }

  lemma DetachRuns(w: World, id: LinkId, detach: bool, delete: bool)
    requires id in w.rows
    ensures var unpinned := w.(pins := w.pins - {id});
            Perform(DetachPlan(id, detach, delete), w) ==
            if !detach then Ran(false, [w, w])
            else if !delete then Ran(false, [w, unpinned, unpinned])
            else Ran(true, [w, unpinned, unpinned.(rows := w.rows - {id})])
  {
    var plan, unpinned := DetachPlan(id, detach, delete), w.(pins := w.pins - {id});
    assert plan[1..] == [Delete(id, delete)];
    DeleteRuns(unpinned, id, delete);
    if detach {
      assert plan[0].undo(unpinned) == [];
    }
  }

  lemma DetachNamed(w: World, id: LinkId, detach: bool, delete: bool)
    requires Valid(w) && id in w.rows
    ensures forall t :: t in Perform(DetachPlan(id, detach, delete), w).trace ==> Valid(t)
  {
    DetachRuns(w, id, detach, delete);
  }

  /** The attach of row w.next, part of the way: a row with or without its pin. */
  ghost predicate Underway(w: World, t: World) {
    && w.next in t.rows && t.rows == w.rows[w.next := t.rows[w.next]]
    && (t.pins == w.pins || t.pins == w.pins + {w.next})
  }

  lemma AttachStates(w: World, program: nat, kernelLink: nat, c: Calls, t: World)
    requires Valid(w) && c.undoDetach && t in Perform(AttachPlan(program, kernelLink, c), w).trace
    ensures Underway(w, t) || (t.rows == w.rows && t.pins == w.pins)
  {
    hide Perform;
    AttachTraceIs(w, program, kernelLink, c);
    assert w.next !in w.rows && w.next !in w.pins;
    assert w.rows[w.next := Row(program, None)] - {w.next} == w.rows;
    assert w.pins + {w.next} - {w.next} == w.pins;
  }

  /** Wherever an attach was cut off, either nothing of it remains or its row does, and detaching that row
      takes away the rest. */
  lemma CrashThenDetach(w: World, program: nat, kernelLink: nat, c: Calls, t: World)
    requires Valid(w) && c.undoDetach && t in Perform(AttachPlan(program, kernelLink, c), w).trace
    ensures w.next !in t.rows ==> t.rows == w.rows && t.pins == w.pins
    ensures w.next in t.rows ==>
              var done := Last(Perform(DetachPlan(w.next, true, true), t).trace);
              done.rows == w.rows && done.pins == w.pins
  {
    hide Perform;
    AttachStates(w, program, kernelLink, c, t);
    assert w.next !in w.rows && w.next !in w.pins;
    if Underway(w, t) {
      DetachRuns(t, w.next, true, true);
      assert t.pins - {w.next} == w.pins;
      assert t.rows - {w.next} == w.rows;
    }
  }

  // Runs.

  datatype Event =
    | AttachEvent(program: nat, kernelLink: nat, calls: Calls, cut: nat)
    | DetachEvent(id: LinkId, detach: bool, delete: bool, cut: nat)

  /** The states of the event; a link that is not stored is not detached. */
  function TraceOf(w: World, e: Event): seq<World> {
    match e
    case AttachEvent(program, kernelLink, calls, cut) => Perform(AttachPlan(program, kernelLink, calls), w).trace
    case DetachEvent(id, detach, delete, cut) =>
      if id in w.rows then Perform(DetachPlan(id, detach, delete), w).trace else [w]
  }

  /** The state where the event ends, or where a crash cuts it off. */
  function Step(w: World, e: Event): World {
    var trace := TraceOf(w, e);
    if e.cut < |trace| then trace[e.cut] else Last(trace)
  }

  /** A crash can leave any of the states. */
  lemma CutAnywhere(w: World, e: Event, t: World)
    requires t in TraceOf(w, e)
    ensures exists cut :: Step(w, e.(cut := cut)) == t
  {
    hide Perform;
    var trace := TraceOf(w, e);
    var i :| 0 <= i < |trace| && trace[i] == t;
    assert TraceOf(w, e.(cut := i)) == trace;
    assert Step(w, e.(cut := i)) == t;
  }

  function Run(w: World, events: seq<Event>): World
    decreases |events|
  {
    if events == [] then w else Run(Step(w, events[0]), events[1..])
  }

  ghost predicate UndoWorks(e: Event) {
    e.AttachEvent? ==> e.calls.undoDetach
  }

  ghost predicate Stored(w: World, id: LinkId, row: Row) {
    id in w.rows && w.rows[id] == row && id in w.pins
  }

  /** An id that was given out and is no row's any more. */
  ghost predicate Retired(w: World, id: LinkId) {
    id < w.next && id !in w.rows && id !in w.pins
  }

  lemma StepKeeps(w: World, e: Event, id: LinkId, row: Row)
    requires Valid(w) && UndoWorks(e)
    ensures Valid(Step(w, e))
    ensures Stored(w, id, row) && !(e.DetachEvent? && e.id == id) ==> Stored(Step(w, e), id, row)
    ensures Retired(w, id) ==> Retired(Step(w, e), id)
  {
    hide Perform;
    match e {
      case AttachEvent(program, kernelLink, calls, cut) =>
        AttachNamed(w, program, kernelLink, calls);
        AttachStates(w, program, kernelLink, calls, Step(w, e));
        AttachTraceIs(w, program, kernelLink, calls);
      case DetachEvent(other, detach, delete, cut) =>
        if other in w.rows {
          DetachNamed(w, other, detach, delete);
          DetachRuns(w, other, detach, delete);
        }
    }
  }

  /** Over every run of attaches and detaches, each failing or crashing anywhere, every pin under links/ is
      named by a stored row; a link stays until its own detach; and a retired id does not come back. */
  lemma {:induction false} RunNamed(w: World, events: seq<Event>, id: LinkId, row: Row)
    requires Valid(w) && forall e :: e in events ==> UndoWorks(e)
    ensures Valid(Run(w, events))
    ensures Stored(w, id, row) && (forall e :: e in events ==> !(e.DetachEvent? && e.id == id)) ==>
              Stored(Run(w, events), id, row)
    ensures Retired(w, id) ==> Retired(Run(w, events), id)
    decreases |events|
  {
    hide Step, Stored, Retired, Valid;
    if events != [] {
      assert events[0] in events;
      StepKeeps(w, events[0], id, row);
      RunNamed(Step(w, events[0]), events[1..], id, row);
    }
  }

  /** An attach none of whose calls fails and that is not cut off leaves its row and pin, through every run
      without a detach of that link. */
  lemma AttachedUntilDetached(w: World, program: nat, kernelLink: nat, calls: Calls, cut: nat, events: seq<Event>)
    requires Valid(w) && calls == Calls(true, true, true, true, true, true) && cut >= 4
    requires forall e :: e in events ==> UndoWorks(e) && !(e.DetachEvent? && e.id == w.next)
    ensures Stored(Run(w, [AttachEvent(program, kernelLink, calls, cut)] + events), w.next, Row(program, Some(kernelLink)))
  {
    hide Perform;
    var e := AttachEvent(program, kernelLink, calls, cut);
    AttachTraceIs(w, program, kernelLink, calls);
    AttachNamed(w, program, kernelLink, calls);
    assert Stored(Step(w, e), w.next, Row(program, Some(kernelLink)));
    assert ([e] + events)[1..] == events;
    RunNamed(Step(w, e), events, w.next, Row(program, Some(kernelLink)));
  }

  /** A detach none of whose calls fails and that is not cut off takes row and pin away, for good. */
  lemma DetachedForGood(w: World, id: LinkId, cut: nat, events: seq<Event>)
    requires Valid(w) && id in w.rows && cut >= 2 && forall e :: e in events ==> UndoWorks(e)
    ensures Retired(Run(w, [DetachEvent(id, true, true, cut)] + events), id)
  {
    hide Perform;
    var e := DetachEvent(id, true, true, cut);
    DetachRuns(w, id, true, true);
    DetachNamed(w, id, true, true);
    assert Retired(Step(w, e), id);
    assert ([e] + events)[1..] == events;
    RunNamed(Step(w, e), events, id, w.rows[id]);
  }
}
