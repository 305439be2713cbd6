/** What the driver's answers mean: a finished unpublish, an undone publish, each refusal, and every OK of a run. */
module CsiReplies {
  import opened MapNames
  import opened Options
  import opened Csi
  import opened CsiRuns

  // Unpublishing.

  /** What an unpublish without failures leaves: both paths bare, every other path and every pin as it was. */
  ghost predicate Cleared(h: Host, h': Host, v: VolumeId, t: string) {
    && Bare(h', Target(t)) && Bare(h', Pod(v)) && h'.contents == h.contents
    && forall path :: path != Target(t) && path != Pod(v) ==> At(h'.mounts, path) == At(h.mounts, path)
  }

  /** The same in two steps. */
  lemma DropsClear(h: Host, v: VolumeId, op: Op, volumeOf: string -> VolumeId)
    requires TableOk(h, volumeOf) && op.phase.DropTarget?
    ensures var first := StepOp(h, v, op, Fine);
            var second := StepOp(first.host, v, op.(phase := DropPod), Fine);
            first.next == Goto(DropPod) && second.next == Done(OK) && Cleared(h, second.host, v, op.target)
  {
    hide TableOk, OthersKept;
    CleanupKeeps(h, Target(op.target), Fine, volumeOf);
    CleanupKeeps(Cleanup(h, Target(op.target), Fine), Pod(v), Fine, volumeOf);
  }

  /** An unpublish none of whose calls fails is answered OK and leaves nothing of the volume at its target and at
      its per-pod path, whatever a crash or a failed call left there before. */
  lemma UnpublishCompletes(s: State, v: VolumeId, t: string, volumeOf: string -> VolumeId)
    requires Invariant(s, volumeOf) && v !in s.inflight && volumeOf(t) == v
    ensures var done := RunFrom(s, [BeginUnpublish(v, t)] + FineSteps(v, 2));
            && done.replies == s.replies + [Reply(v, t, false, OK)] && done.inflight == s.inflight
            && Cleared(s.host, done.host, v, t)
  {
    hide TableOk, StepOp;
    var op := Op(t, [], false, DropTarget);
    DropsClear(s.host, v, op, volumeOf);
    var begun := Step(s, BeginUnpublish(v, t));
    ThenTwoFine(s, BeginUnpublish(v, t), v);
    assert StepAdvance(begun, v, Fine).inflight == s.inflight[v := op.(phase := DropPod)];
    assert s.inflight[v := op.(phase := DropPod)] - {v} == s.inflight;
  }

  lemma ThenTwoFine(s: State, e: Event, v: VolumeId)
    requires v in Step(s, e).inflight && v in StepAdvance(Step(s, e), v, Fine).inflight
    ensures RunFrom(s, [e] + FineSteps(v, 2)) == StepAdvance(StepAdvance(Step(s, e), v, Fine), v, Fine)
  {
    hide StepAdvance;
    var events := [e] + FineSteps(v, 2);
    assert events[1..] == FineSteps(v, 2) && FineSteps(v, 2)[1..] == [Advance(v, Fine)];
    OneStep(StepAdvance(Step(s, e), v, Fine), Advance(v, Fine));
  }

  lemma FailureTurns(h: Host, v: VolumeId, op: Op, fate: Fate)
    requires Working(op.phase) && !op.phase.Find? && !fate.Fine?
    ensures StepOp(h, v, op, fate).next == Goto(UndoTarget(if op.phase.Pin? && fate.Missing? then NotFound else Internal))
  {}

  lemma InvariantTable(s: State, volumeOf: string -> VolumeId)
    requires Invariant(s, volumeOf)
    ensures TableOk(s.host, volumeOf)
  {}

  lemma UndoClears(h: Host, v: VolumeId, op: Op, volumeOf: string -> VolumeId)
    requires TableOk(h, volumeOf) && op.phase.UndoTarget?
    ensures var first := StepOp(h, v, op, Fine);
            var second := StepOp(first.host, v, op.(phase := UndoPod(op.phase.cause)), Fine);
            && first.next == Goto(UndoPod(op.phase.cause)) && second.next == Done(op.phase.cause)
            && Cleared(h, second.host, v, op.target)
  {
    hide TableOk, OthersKept, Cleanup;
    UnmountKeeps(h, Target(op.target), volumeOf);
    CleanupKeeps(h.(mounts := Unmount(h.mounts, Target(op.target))), Pod(v), Fine, volumeOf);
  }

  /** A publish that fails at any step of its work, and whose rollback does not, leaves nothing of the volume at
      its target and at its per-pod path. A map that the program does not pin is answered NotFound. */
  lemma FailureUndone(s: State, v: VolumeId, fate: Fate, volumeOf: string -> VolumeId)
    requires Invariant(s, volumeOf) && v in s.inflight && Working(s.inflight[v].phase) && !s.inflight[v].phase.Find?
    requires !fate.Fine?
    ensures var op, done := s.inflight[v], RunFrom(s, [Advance(v, fate)] + FineSteps(v, 2));
            var code := if op.phase.Pin? && fate.Missing? then NotFound else Internal;
            && done.replies == s.replies + [Reply(v, op.target, true, code)] && done.inflight == s.inflight - {v}
            && Bare(done.host, Target(op.target)) && Bare(done.host, Pod(v))
  {
    hide TableOk, StepOp, Invariant, Working, RunFrom, FineSteps;
    var op, failed := s.inflight[v], StepAdvance(s, v, fate);
    var code := if op.phase.Pin? && fate.Missing? then NotFound else Internal;
    FailureTurns(s.host, v, op, fate);
    AdvanceInvariant(s, v, fate, volumeOf);
    InvariantTable(failed, volumeOf);
    UndoClears(failed.host, v, op.(phase := UndoTarget(code)), volumeOf);
    ThenTwoFine(s, Advance(v, fate), v);
    assert failed.inflight == s.inflight[v := op.(phase := UndoTarget(code))];
    var half := StepAdvance(failed, v, Fine);
    assert half.inflight == s.inflight[v := op.(phase := UndoPod(code))];
    assert half.inflight - {v} == s.inflight - {v};
  }

  /** The publish is answered and over, and nothing else has changed. */
  ghost function Ended(s: State, v: VolumeId, code: Code): State
    requires v in s.inflight
  {
    s.(inflight := s.inflight - {v}, replies := s.replies + [Reply(v, s.inflight[v].target, true, code)])
  }

  /** Something other than a BPF filesystem is mounted on the target. */
  ghost predicate Foreign(h: Host, target: string) {
    var top := Top(h.mounts, Target(target));
    top.Some? && !top.value.bpf
  }

  /** A failure before the work ends the call and leaves the host as it was: NotFound for a program that is not
      there, FailedPrecondition for a target with another kind of mount, Internal for the rest. */
  lemma EarlyFailure(s: State, v: VolumeId, fate: Fate)
    requires v in s.inflight && (s.inflight[v].phase.Check? || s.inflight[v].phase.Find?)
    ensures !fate.Fine? ==>
              StepAdvance(s, v, fate) == Ended(s, v, if s.inflight[v].phase.Find? && fate.Missing? then NotFound else Internal)
    ensures fate.Fine? && s.inflight[v].phase.Check? && Foreign(s.host, s.inflight[v].target) ==>
              StepAdvance(s, v, fate) == Ended(s, v, FailedPrecondition)
  {}

  /** A step whose first call fails changes nothing. */
  lemma AtOnceNothing(h: Host, v: VolumeId, op: Op, fate: Fate)
    requires AtOnce(fate)
    ensures StepOp(h, v, op, fate).host == h
  {}

  // Every OK in a run.

  /** An OK given by this event in this state: a publish that publishes, or an unpublish that bares its target. */
  ghost predicate Earned(s: State, e: Event, reply: Reply) {
    && e.Advance? && e.volume == reply.volume && e.volume in s.inflight
    && var op := s.inflight[e.volume];
    && op.target == reply.target && reply.publish == !Dropping(op)
    && (reply.publish ==> Published(Step(s, e).host, op.target, Elements(op.maps), op.ro))
    && (!reply.publish ==> Bare(Step(s, e).host, Target(op.target)))
  }

  lemma StepEarned(s: State, e: Event, volumeOf: string -> VolumeId)
    requires Invariant(s, volumeOf)
    ensures s.replies <= Step(s, e).replies && |Step(s, e).replies| <= |s.replies| + 1
    ensures |Step(s, e).replies| > |s.replies| && Step(s, e).replies[|s.replies|].code == OK ==>
              Earned(s, e, Step(s, e).replies[|s.replies|])
  {
    hide TableOk, OpOk, StepOp, Published, Bare, OthersKept;
    if e.Advance? && e.volume in s.inflight {
      OpKeeps(s.host, e.volume, s.inflight[e.volume], e.fate, volumeOf);
    }
  }

  /** In every run, each OK among the replies was given by a step that published, or bared, its target. */
  lemma {:induction false} OkIsEarned(s: State, events: seq<Event>, j: nat, volumeOf: string -> VolumeId)
    requires Invariant(s, volumeOf) && Allotted(events, volumeOf)
    requires |s.replies| <= j < |RunFrom(s, events).replies| && RunFrom(s, events).replies[j].code == OK
    ensures exists i :: 0 <= i < |events| && Earned(RunFrom(s, events[..i]), events[i], RunFrom(s, events).replies[j])
    decreases |events|
  {
    hide Invariant, Earned, Step;
    assert events != [];
    var next := Step(s, events[0]);
    StepEarned(s, events[0], volumeOf);
    StepInvariant(s, events[0], volumeOf);
    RepliesGrow(next, events[1..], volumeOf);
    var reply := RunFrom(s, events).replies[j];
    if j < |next.replies| {
      assert reply == next.replies[j];
      assert RunFrom(s, events[..0]) == s;
    } else {
      OkIsEarned(next, events[1..], j, volumeOf);
      var i :| 0 <= i < |events[1..]| && Earned(RunFrom(next, events[1..][..i]), events[1..][i], reply);
      assert events[..i + 1][0] == events[0] && events[..i + 1][1..] == events[1..][..i];
      assert RunFrom(s, events[..i + 1]) == RunFrom(next, events[1..][..i]);
      assert events[1..][i] == events[i + 1];
    }
  }

  lemma {:induction false} RepliesGrow(s: State, events: seq<Event>, volumeOf: string -> VolumeId)
    requires Invariant(s, volumeOf) && Allotted(events, volumeOf)
    ensures s.replies <= RunFrom(s, events).replies
    decreases |events|
  {
    hide Invariant, Step, Earned;
    if events != [] {
      StepEarned(s, events[0], volumeOf);
      StepInvariant(s, events[0], volumeOf);
      RepliesGrow(Step(s, events[0]), events[1..], volumeOf);
    }
  }

  /** A call for a volume that has one in flight is answered Aborted and changes nothing else. */
  lemma BusyAborted(s: State, v: VolumeId, t: string, attribute: string, ro: bool)
    requires v in s.inflight
    ensures Step(s, BeginUnpublish(v, t)) == s.(replies := s.replies + [Reply(v, t, false, Aborted)])
    ensures AcceptableMaps(Names(attribute)) ==>
              Step(s, BeginPublish(v, t, attribute, ro)) == s.(replies := s.replies + [Reply(v, t, true, Aborted)])
  {}

  /** Busy or not, a publish is refused as invalid iff it names no map or a name is not a single path element. */
  lemma BadMapsRefused(s: State, v: VolumeId, t: string, attribute: string, ro: bool)
    ensures Step(s, BeginPublish(v, t, attribute, ro)) == s.(replies := s.replies + [Reply(v, t, true, InvalidArgument)]) <==>
            Names(attribute) == [] || exists name :: name in Names(attribute) && ('/' in name || name == "." || name == "..")
  {
    hide Names;
    var done := Step(s, BeginPublish(v, t, attribute, ro)).replies;
    assert |done| > |s.replies| ==> done[|s.replies|].code == if AcceptableMaps(Names(attribute)) then Aborted else InvalidArgument;
  }

  // The names bpffs keeps for itself.

  ghost predicate NoneReserved(h: Host) {
    forall f :: f in h.contents ==> "maps.debug" !in h.contents[f] && "progs.debug" !in h.contents[f]
  }

  lemma StepNoneReserved(s: State, e: Event)
    requires NoneReserved(s.host)
    ensures NoneReserved(Step(s, e).host)
  {
    hide Names, AcceptableMaps;
    if e.Advance? && e.volume in s.inflight {
      OpNoneReserved(s.host, e.volume, s.inflight[e.volume], e.fate);
      hide StepOp;
    }
  }

  lemma OpNoneReserved(h: Host, v: VolumeId, op: Op, fate: Fate)
    requires NoneReserved(h)
    ensures NoneReserved(StepOp(h, v, op, fate).host)
  {
    hide Cleanup, StepPin;
    match op.phase
    case Stale | UndoPod(_) | DropPod => CleanupNoneReserved(h, Pod(v), fate);
    case DropTarget => CleanupNoneReserved(h, Target(op.target), fate);
    case Pin(i) => PinNoneReserved(h, v, op, i, fate);
    case _ =>
  }

  lemma CleanupNoneReserved(h: Host, path: Path, fate: Fate)
    requires NoneReserved(h)
    ensures NoneReserved(Cleanup(h, path, fate))
  {}

  lemma PinNoneReserved(h: Host, v: VolumeId, op: Op, i: nat, fate: Fate)
    requires NoneReserved(h)
    ensures NoneReserved(StepPin(h, v, op, i, fate).host)
  {}

  lemma {:induction false} RunNoneReserved(s: State, events: seq<Event>)
    requires NoneReserved(s.host)
    ensures NoneReserved(RunFrom(s, events).host)
    decreases |events|
  {
    hide Step, NoneReserved;
    if events != [] {
      StepNoneReserved(s, events[0]);
      RunNoneReserved(Step(s, events[0]), events[1..]);
    }
  }

  lemma OneStep(s: State, e: Event)
    ensures RunFrom(s, [e]) == Step(s, e)
  {
    assert [e][1..] == [];
  }

  /** A publish that asks for a reserved name is never answered OK. */
  lemma ReservedNeverOk(events: seq<Event>, v: VolumeId, fate: Fate, volumeOf: string -> VolumeId)
    requires Allotted(events, volumeOf)
    requires v in Run(events).inflight && !Dropping(Run(events).inflight[v])
    requires "maps.debug" in Run(events).inflight[v].maps || "progs.debug" in Run(events).inflight[v].maps
    ensures var s := Run(events);
            var done := StepAdvance(s, v, fate);
            done.replies == s.replies || done.replies[|s.replies|].code != OK
  {
    hide TableOk, OpOk, StepOp, OthersKept, RunFrom;
    var s := Run(events);
    NoStacking(events, [], Pod(v), volumeOf);
    RunNoneReserved(State(Host(map[], map[], 0), map[], []), events);
    assert NoneReserved(RunFrom(s, [Advance(v, fate)]).host) by {
      RunNoneReserved(s, [Advance(v, fate)]);
    }
    OneStep(s, Advance(v, fate));
    RepliesMean(s, v, fate, volumeOf);
  }
}
