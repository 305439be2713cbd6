/** Whole runs of the driver, with crashes and retries: one mount per path, what stays published, and how retries
    are answered. */
module CsiRuns {
  import opened MapNames
  import opened Options
  import opened Csi

  // Whole runs.

  lemma StepInvariant(s: State, e: Event, volumeOf: string -> VolumeId)
    requires Invariant(s, volumeOf) && Allotted([e], volumeOf)
    ensures Invariant(Step(s, e), volumeOf) && PinsKept(s.host, Step(s, e).host)
  {
    hide TableOk, OthersKept, PhaseOk;
    assert e in [e];
    if e.BeginPublish? {
      KeptAre(Text.Split(e.attribute, ','));
      CheckAnywhere(s.host, e.volume, Op(e.target, Names(e.attribute), e.ro, Check));
    } else if e.BeginUnpublish? {
      CheckAnywhere(s.host, e.volume, Op(e.target, [], false, DropTarget));
    } else if e.Advance? && e.volume in s.inflight {
      AdvanceInvariant(s, e.volume, e.fate, volumeOf);
    }
  }

  lemma CheckAnywhere(h: Host, v: VolumeId, op: Op)
    requires op.phase.Check? || op.phase.DropTarget?
    ensures PhaseOk(h, v, op)
  {}

  lemma AdvanceInvariant(s: State, v: VolumeId, fate: Fate, volumeOf: string -> VolumeId)
    requires Invariant(s, volumeOf) && v in s.inflight
    ensures Invariant(StepAdvance(s, v, fate), volumeOf) && PinsKept(s.host, StepAdvance(s, v, fate).host)
  {
    hide TableOk, OthersKept, OpOk, StepOp;
    var s' := StepAdvance(s, v, fate);
    OpKeeps(s.host, v, s.inflight[v], fate, volumeOf);
    forall w | w in s'.inflight ensures OpOk(s'.host, w, s'.inflight[w], volumeOf) {
      if w != v {
        OthersUndisturbed(s.host, s'.host, v, w, s.inflight[w], volumeOf);
      }
    }
  }

  lemma {:induction false} RunKeeps(s: State, events: seq<Event>, volumeOf: string -> VolumeId)
    requires Invariant(s, volumeOf) && Allotted(events, volumeOf)
    ensures Invariant(RunFrom(s, events), volumeOf) && PinsKept(s.host, RunFrom(s, events).host)
    decreases |events|
  {
    hide Invariant;
    if events != [] {
      StepInvariant(s, events[0], volumeOf);
      RunKeeps(Step(s, events[0]), events[1..], volumeOf);
    }
  }

  /** After any run, with crashes anywhere, no path carries a second mount; and no step removes a pin. */
  lemma NoStacking(events: seq<Event>, more: seq<Event>, path: Path, volumeOf: string -> VolumeId)
    requires Allotted(events, volumeOf) && Allotted(more, volumeOf)
    ensures |At(Run(events).host.mounts, path)| <= 1
    ensures Invariant(Run(events), volumeOf)
    ensures PinsKept(Run(events).host, RunFrom(Run(events), more).host)
  {
    RunKeeps(State(Host(map[], map[], 0), map[], []), events, volumeOf);
    assert Single(Run(events).host, path);
    RunKeeps(Run(events), more, volumeOf);
  }

  /** What the replies mean in every reachable state. */
  lemma RepliesMean(s: State, v: VolumeId, fate: Fate, volumeOf: string -> VolumeId)
    requires Invariant(s, volumeOf) && v in s.inflight
    ensures var op, s' := s.inflight[v], StepAdvance(s, v, fate);
            && (s'.replies == s.replies + [Reply(v, op.target, true, OK)] ==>
                  Published(s'.host, op.target, Elements(op.maps), op.ro))
            && (s'.replies == s.replies + [Reply(v, op.target, false, OK)] ==>
                  Bare(s'.host, Target(op.target)) && (!AtOnce(fate) ==> Bare(s'.host, Pod(v))))
  {
    hide TableOk, OthersKept, OpOk;
    var op := s.inflight[v];
    if op.phase.DropPod? {
      CleanupKeeps(s.host, Pod(v), fate, volumeOf);
    }
    hide StepOp;
    OpKeeps(s.host, v, op, fate, volumeOf);
    var added := StepAdvance(s, v, fate).replies;
    assert added != s.replies ==> added[|s.replies|].publish == !Dropping(op);
    assert added == s.replies + [Reply(v, op.target, true, OK)] ==> added[|s.replies|] == Reply(v, op.target, true, OK);
    assert added == s.replies + [Reply(v, op.target, false, OK)] ==> added[|s.replies|] == Reply(v, op.target, false, OK);
  }

  // A published volume stays published.

  /** No call for this target is past its first look at it. */
  ghost predicate Settled(s: State, t: string) {
    forall v :: v in s.inflight && s.inflight[v].target == t ==> s.inflight[v].phase.Check?
  }

  lemma IdleSettled(s: State, t: string, volumeOf: string -> VolumeId)
    requires Invariant(s, volumeOf) && volumeOf(t) !in s.inflight
    ensures Settled(s, t)
  {
    assert forall v :: v in s.inflight ==> volumeOf(s.inflight[v].target) == v;
  }

  lemma OpLeavesTarget(h: Host, v: VolumeId, op: Op, fate: Fate, t: string, maps: set<string>, ro: bool, volumeOf: string -> VolumeId)
    requires TableOk(h, volumeOf) && OpOk(h, v, op, volumeOf) && (op.target != t || op.phase.Check?)
    requires Published(h, t, maps, ro)
    ensures Published(StepOp(h, v, op, fate).host, t, maps, ro)
  {
    hide Cleanup, OthersKept, StepPin;
    var f := Top(h.mounts, Target(t)).value.fs;
    assert Shows(h, Target(t), f);
    match op.phase
    case Stale | UndoPod(_) | DropPod => CleanupKeeps(h, Pod(v), fate, volumeOf);
    case DropTarget => CleanupKeeps(h, Target(op.target), fate, volumeOf);
    case Pin(i) => PinLeavesTarget(h, v, op, i, fate, t, maps, ro, volumeOf);
    case _ =>
  }

  lemma PinLeavesTarget(
      h: Host, v: VolumeId, op: Op, i: nat, fate: Fate, t: string, maps: set<string>, ro: bool, volumeOf: string -> VolumeId)
    requires TableOk(h, volumeOf) && OpOk(h, v, op, volumeOf) && op.phase == Pin(i) && op.target != t
    requires Published(h, t, maps, ro)
    ensures Published(StepPin(h, v, op, i, fate).host, t, maps, ro)
  {
    var f := Top(h.mounts, Target(t)).value.fs;
    assert Shows(h, Target(t), f);
  }

  lemma StepLeavesTarget(s: State, e: Event, t: string, maps: set<string>, ro: bool, volumeOf: string -> VolumeId)
    requires Invariant(s, volumeOf) && Settled(s, t) && Published(s.host, t, maps, ro)
    requires e.BeginUnpublish? ==> e.target != t
    ensures Settled(Step(s, e), t) && Published(Step(s, e).host, t, maps, ro)
  {
    if e.Advance? && e.volume in s.inflight {
      OpLeavesTarget(s.host, e.volume, s.inflight[e.volume], e.fate, t, maps, ro, volumeOf);
      var op := s.inflight[e.volume];
      if op.target == t {
        assert Top(s.host.mounts, Target(t)).Some?;
      }
    }
  }

  ghost predicate NeverUnpublished(events: seq<Event>, t: string) {
    forall e :: e in events && e.BeginUnpublish? ==> e.target != t
  }

  /** Once published, a target keeps its maps through every run without an unpublish of it: repeated
      publishes with any arguments, calls for other volumes, failures and crashes. */
  lemma {:induction false} StaysPublished(
    s: State, events: seq<Event>, t: string, maps: set<string>, ro: bool, volumeOf: string -> VolumeId)
    requires Invariant(s, volumeOf) && Allotted(events, volumeOf)
    requires Settled(s, t) && Published(s.host, t, maps, ro)
    requires NeverUnpublished(events, t)
    ensures Settled(RunFrom(s, events), t) && Published(RunFrom(s, events).host, t, maps, ro)
    ensures Invariant(RunFrom(s, events), volumeOf)
    decreases |events|
  {
    hide Invariant, Published, Settled;
    if events != [] {
      StepInvariant(s, events[0], volumeOf);
      StepLeavesTarget(s, events[0], t, maps, ro, volumeOf);
      StaysPublished(Step(s, events[0]), events[1..], t, maps, ro, volumeOf);
    }
  }

  /** Publishing again: OK exactly when the target already shows these maps with this flag, a refusal
      exactly when it shows something else, and nothing changes in either case. */
  lemma Republish(h: Host, v: VolumeId, op: Op, volumeOf: string -> VolumeId)
    requires TableOk(h, volumeOf) && op.phase.Check?
    ensures var e := StepOp(h, v, op, Fine);
            && e.host == h
            && (e.next == Done(OK) <==> Published(h, op.target, Elements(op.maps), op.ro))
            && (e.next == Goto(Find) <==> Bare(h, Target(op.target)))
            && (e.next == Done(AlreadyExists) <==>
                !Bare(h, Target(op.target)) && !Published(h, op.target, Elements(op.maps), op.ro))
  {
    assert Single(h, Target(op.target));
  }

  /** The state after a call of volume v, at its check, has been answered. */
  function Answered(s: State, v: VolumeId, code: Code): State
    requires v in s.inflight
  {
    Say(s.(inflight := s.inflight - {v}), v, s.inflight[v].target, true, code)
  }

  lemma AnswerIs(s: State, v: VolumeId, volumeOf: string -> VolumeId)
    requires Invariant(s, volumeOf) && v in s.inflight && s.inflight[v].phase.Check?
    ensures var op, s' := s.inflight[v], StepAdvance(s, v, Fine);
            && (Published(s.host, op.target, Elements(op.maps), op.ro) ==> s' == Answered(s, v, OK))
            && (!Bare(s.host, Target(op.target)) && !Published(s.host, op.target, Elements(op.maps), op.ro) ==>
                  s' == Answered(s, v, AlreadyExists))
            && (Bare(s.host, Target(op.target)) ==> s' == s.(inflight := s.inflight[v := op.(phase := Find)]))
  {
    hide TableOk, OpOk, Published, Bare, StepOp;
    Republish(s.host, v, s.inflight[v], volumeOf);
  }

  /** Idempotence over runs. Once a publish of maps at a target has been answered OK, then through every run
      without an unpublish of that target - calls for other volumes, publishes with other arguments, failures,
      crashes - each publish of the same set of maps with the same flag is at its check, is answered OK there,
      and leaves the host as it is. */
  lemma PublishIdempotent(s: State, v: VolumeId, fate: Fate, events: seq<Event>, volumeOf: string -> VolumeId)
    requires Invariant(s, volumeOf) && v in s.inflight && Allotted(events, volumeOf)
    requires StepAdvance(s, v, fate).replies == s.replies + [Reply(v, s.inflight[v].target, true, OK)]
    requires NeverUnpublished(events, s.inflight[v].target)
    ensures var op, later := s.inflight[v], RunFrom(StepAdvance(s, v, fate), events);
            && Published(later.host, op.target, Elements(op.maps), op.ro)
            && (v in later.inflight && SameRequest(later.inflight[v], op) ==>
                  later.inflight[v].phase.Check? && StepAdvance(later, v, Fine) == Answered(later, v, OK))
  {
    hide TableOk, OpOk, StepOp, Published;
    var op, done := s.inflight[v], StepAdvance(s, v, fate);
    RepliesMean(s, v, fate, volumeOf);
    AdvanceInvariant(s, v, fate, volumeOf);
    OkEnds(s, v, fate, volumeOf);
    IdleSettled(done, op.target, volumeOf);
    StaysPublished(done, events, op.target, Elements(op.maps), op.ro, volumeOf);
    var later := RunFrom(done, events);
    if v in later.inflight && SameRequest(later.inflight[v], op) {
      AnswerIs(later, v, volumeOf);
    }
  }

  /** The same target, the same set of maps, the same flag. */
  ghost predicate SameRequest(a: Op, b: Op) {
    a.target == b.target && Elements(a.maps) == Elements(b.maps) && a.ro == b.ro
  }

  lemma OkEnds(s: State, v: VolumeId, fate: Fate, volumeOf: string -> VolumeId)
    requires Invariant(s, volumeOf) && v in s.inflight && StepAdvance(s, v, fate).replies != s.replies
    ensures v !in StepAdvance(s, v, fate).inflight && volumeOf(s.inflight[v].target) == v
  {
    assert OpOk(s.host, v, s.inflight[v], volumeOf);
  }

  // Completion: without failures a publish that has passed its check publishes, whatever a crash left.

  predicate Working(phase: Phase) {
    phase.Find? || phase.Stale? || phase.MountPod? || phase.Pin? || phase.Bind? || phase.Remount?
  }

  ghost function Rank(op: Op): int {
    match op.phase
    case Find => |op.maps| + 5
    case Stale => |op.maps| + 4
    case MountPod => |op.maps| + 3
    case Pin(i) => |op.maps| - i + 2
    case Bind => 2
    case _ => 1
  }

  lemma WorkProceeds(h: Host, v: VolumeId, op: Op, volumeOf: string -> VolumeId)
    requires TableOk(h, volumeOf) && OpOk(h, v, op, volumeOf) && Working(op.phase)
    requires "maps.debug" !in op.maps && "progs.debug" !in op.maps
    ensures var e := StepOp(h, v, op, Fine);
            e.next == Done(OK) ||
            (e.next.Goto? && Working(e.next.phase) && 0 <= Rank(op.(phase := e.next.phase)) < Rank(op))
  {}

  function FineSteps(v: VolumeId, n: nat): seq<Event> {
    seq(n, i => Advance(v, Fine))
  }

  lemma {:induction false} Completes(s: State, v: VolumeId, volumeOf: string -> VolumeId) returns (n: nat)
    requires Invariant(s, volumeOf) && v in s.inflight && Working(s.inflight[v].phase)
    requires "maps.debug" !in s.inflight[v].maps && "progs.debug" !in s.inflight[v].maps
    ensures var op, s' := s.inflight[v], RunFrom(s, FineSteps(v, n));
            && s'.replies == s.replies + [Reply(v, op.target, true, OK)] && v !in s'.inflight
            && Published(s'.host, op.target, Elements(op.maps), op.ro)
    decreases Rank(s.inflight[v])
  {
    hide TableOk, OthersKept, OpOk, StepOp;
    var op, s' := s.inflight[v], StepAdvance(s, v, Fine);
    WorkProceeds(s.host, v, op, volumeOf);
    OpKeeps(s.host, v, op, Fine, volumeOf);
    AdvanceInvariant(s, v, Fine, volumeOf);
    if v in s'.inflight {
      var m := Completes(s', v, volumeOf);
      n := m + 1;
      assert FineSteps(v, n)[1..] == FineSteps(v, m);
    } else {
      n := 1;
      assert FineSteps(v, 1)[1..] == [];
    }
  }

  /** The state just after a crash and the start of a retry with the same arguments. */
  function Retried(s: State, v: VolumeId): State
    requires v in s.inflight
  {
    s.(inflight := map[v := s.inflight[v].(phase := Check)])
  }

  lemma CrashAndRetry(s: State, v: VolumeId, attribute: string)
    requires v in s.inflight && Names(attribute) == s.inflight[v].maps && AcceptableMaps(Names(attribute))
    ensures RunFrom(s, [Crash, BeginPublish(v, s.inflight[v].target, attribute, s.inflight[v].ro)]) == Retried(s, v)
  {
    var events := [Crash, BeginPublish(v, s.inflight[v].target, attribute, s.inflight[v].ro)];
    assert events[1..] == [events[1]] && [events[1]][1..] == [];
    assert RunFrom(s, events) == RunFrom(Step(s, Crash), [events[1]]) == Step(Step(s, Crash), events[1]);
    assert map[][v := s.inflight[v].(phase := Check)] == map[v := s.inflight[v].(phase := Check)];
  }

  /** A publish past its check is cut off by a crash, at whatever step of its work or of its rollback. The retry
      with the same arguments is refused exactly when the call was read-only and its bind mount is still
      there, writable; otherwise it starts afresh. During the work that is the one step between the bind mount
      and the read-only remount; during the rollback it is until the target is unmounted. */
  lemma RetryAfterCrash(s: State, v: VolumeId, attribute: string, volumeOf: string -> VolumeId)
    requires Invariant(s, volumeOf) && v in s.inflight && PastCheck(s.inflight[v])
    requires Names(attribute) == s.inflight[v].maps && AcceptableMaps(Names(attribute))
    ensures var op := s.inflight[v];
            var begun := RunFrom(s, [Crash, BeginPublish(v, op.target, attribute, op.ro)]);
            && begun == Retried(s, v)
            && (StepAdvance(begun, v, Fine) == Answered(begun, v, AlreadyExists) <==> Writable(s.host, op))
            && (StepAdvance(begun, v, Fine).inflight == map[v := op.(phase := Find)] <==> !Writable(s.host, op))
            && StepAdvance(begun, v, Fine).host == s.host
            && (Working(op.phase) ==> (Writable(s.host, op) <==> op.phase.Remount?))
            && (Writable(s.host, op) <==> op.ro && !Bare(s.host, Target(op.target)))
  {
    hide RunFrom, Names, TableOk;
    var op := s.inflight[v];
    CrashAndRetry(s, v, attribute);
    assert OpOk(s.host, v, op, volumeOf);
    BareOrShown(s.host, op);
    RetryAnswer(s.host, Retried(s, v), v, op, volumeOf);
  }

  lemma BareOrShown(h: Host, op: Op)
    ensures Writable(h, op) ==> !Bare(h, Target(op.target)) && !Published(h, op.target, Elements(op.maps), op.ro)
  {}

  /** A retry that finds the host as a publish past its check left it. */
  lemma RetryAnswer(h: Host, begun: State, v: VolumeId, op: Op, volumeOf: string -> VolumeId)
    requires TableOk(h, volumeOf) && begun.host == h && volumeOf(op.target) == v
    requires v in begun.inflight && begun.inflight[v] == op.(phase := Check)
    requires Bare(h, Target(op.target)) || Writable(h, op)
    ensures var after := StepAdvance(begun, v, Fine);
            && after == if Writable(h, op) then Answered(begun, v, AlreadyExists)
                        else begun.(inflight := begun.inflight[v := op.(phase := Find)])
  {
    hide TableOk, Published, StepOp;
    BareOrShown(h, op);
    Republish(h, v, begun.inflight[v], volumeOf);
  }

  /** The same after a publish that failed and was rolled back without a crash: whichever step failed, and
      whichever steps of the rollback failed with it. */
  lemma RetryAfterFailure(s: State, v: VolumeId, fate: Fate, attribute: string, volumeOf: string -> VolumeId)
    requires Invariant(s, volumeOf) && v in s.inflight && PastCheck(s.inflight[v])
    requires Failed(StepOp(s.host, v, s.inflight[v], fate).next)
    requires Names(attribute) == s.inflight[v].maps && AcceptableMaps(Names(attribute))
    ensures var op, failed := s.inflight[v], StepAdvance(s, v, fate);
            var begun := Step(failed, BeginPublish(v, op.target, attribute, op.ro));
            && v !in failed.inflight && begun.host == failed.host
            && begun.inflight == failed.inflight[v := op.(phase := Check)]
            && StepAdvance(begun, v, Fine) ==
               if Writable(failed.host, op) then Answered(begun, v, AlreadyExists)
               else begun.(inflight := begun.inflight[v := op.(phase := Find)])
  {
    hide Names, TableOk, OthersKept, StepOp, Published;
    var op, failed := s.inflight[v], StepAdvance(s, v, fate);
    OpKeeps(s.host, v, op, fate, volumeOf);
    assert volumeOf(op.target) == v;
    var begun := Step(failed, BeginPublish(v, op.target, attribute, op.ro));
    RetryAnswer(failed.host, begun, v, op, volumeOf);
  }

  /** A refused retry stays refused: once a read-only publish has left its target writable, every such
      publish is answered AlreadyExists at its check, through every run without an unpublish of the target. */
  lemma RefusedUntilUnpublished(s: State, op: Op, v: VolumeId, events: seq<Event>, volumeOf: string -> VolumeId)
    requires Invariant(s, volumeOf) && volumeOf(op.target) == v && v !in s.inflight && Writable(s.host, op)
    requires Allotted(events, volumeOf) && NeverUnpublished(events, op.target)
    ensures var later := RunFrom(s, events);
            && Writable(later.host, op)
            && (v in later.inflight && SameRequest(later.inflight[v], op) ==>
                  later.inflight[v].phase.Check? && StepAdvance(later, v, Fine) == Answered(later, v, AlreadyExists))
  {
    hide TableOk, OpOk, StepOp;
    IdleSettled(s, op.target, volumeOf);
    StaysPublished(s, events, op.target, Elements(op.maps), false, volumeOf);
    var later := RunFrom(s, events);
    if v in later.inflight && SameRequest(later.inflight[v], op) {
      BareOrShown(later.host, later.inflight[v]);
      AnswerIs(later, v, volumeOf);
    }
  }

  /** Every read-only publish passes between the bind mount and the remount. */
  lemma {:induction false} PassesRemount(s: State, v: VolumeId, volumeOf: string -> VolumeId) returns (n: nat)
    requires Invariant(s, volumeOf) && v in s.inflight && Working(s.inflight[v].phase) && s.inflight[v].ro
    requires "maps.debug" !in s.inflight[v].maps && "progs.debug" !in s.inflight[v].maps
    ensures var s' := RunFrom(s, FineSteps(v, n));
            v in s'.inflight && s'.inflight[v] == s.inflight[v].(phase := Remount)
    decreases Rank(s.inflight[v])
  {
    hide TableOk, OthersKept, OpOk;
    if s.inflight[v].phase.Remount? {
      n := 0;
      assert FineSteps(v, 0) == [];
    } else {
      WorkProceeds(s.host, v, s.inflight[v], volumeOf);
      AdvanceInvariant(s, v, Fine, volumeOf);
      var m := PassesRemount(StepAdvance(s, v, Fine), v, volumeOf);
      n := m + 1;
      assert FineSteps(v, n)[1..] == FineSteps(v, m);
    }
  }
}
