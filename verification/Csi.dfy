/** The CSI node plugin's publish and unpublish (Node Service RPC of the CSI specification) as a state
    machine: one step per system call, calls for different volumes interleaved, any step may fail, and
    the driver may crash between any two. */
module Csi {

  import opened MapNames
  import opened Options

  type VolumeId = string
  type FsId = nat

  /** A target path, or the per-pod bpffs directory of a volume. */
  datatype Path = Target(target: string) | Pod(volume: VolumeId)

  /** A mount of a file system; several mounts may show one file system. */
  datatype Mount = Mount(bpf: bool, fs: FsId, ro: bool)

  /** The mounts stacked on each path, the topmost last. */
  type Table = map<Path, seq<Mount>>

  datatype Phase =
    | Check | Find | Stale | MountPod | Pin(next: nat) | Bind | Remount
    | UndoTarget(cause: Code) | UndoPod(cause: Code) | DropTarget | DropPod

  datatype Op = Op(target: string, maps: seq<string>, ro: bool, phase: Phase)

  datatype Code = OK | InvalidArgument | Aborted | NotFound | FailedPrecondition | AlreadyExists | Internal

  datatype Reply = Reply(volume: VolumeId, target: string, publish: bool, code: Code)

  /** The mount table and what each file system holds. */
  datatype Host = Host(mounts: Table, contents: map<FsId, set<string>>, nextFs: FsId)

  /** The host and the driver's calls in flight, one per volume. */
  datatype State = State(host: Host, inflight: map<VolumeId, Op>, replies: seq<Reply>)

  /** A step's calls succeed, fail at once (the program or map looked up is not there, or anything else), or fail
      after the first has taken effect: the directory removal after an unmount, or the change of owner or mode
      after a mount or a pin. */
  datatype Fate = Fine | Missing | Fails | FailsLate

  predicate AtOnce(fate: Fate) {
    fate.Missing? || fate.Fails?
  }

  datatype Event =
    | BeginPublish(volume: VolumeId, target: string, attribute: string, ro: bool)
    | BeginUnpublish(volume: VolumeId, target: string)
    | Advance(volume: VolumeId, fate: Fate)
    | Crash

  // The mount table.

  function At(mounts: Table, path: Path): seq<Mount> {
    if path in mounts then mounts[path] else []
  }

  /** The topmost mount, what a process at that path sees. */
  function Top(mounts: Table, path: Path): Option<Mount> {
    var stack := At(mounts, path);
    if stack == [] then None else Some(stack[|stack| - 1])
  }

  function Push(mounts: Table, path: Path, m: Mount): Table {
    mounts[path := At(mounts, path) + [m]]
  }

  /** Unmounting takes the topmost; a path that is not a mount point is tolerated. */
  function Unmount(mounts: Table, path: Path): Table {
    var stack := At(mounts, path);
    if stack == [] then mounts else mounts[path := stack[..|stack| - 1]]
  }

  /** Remounting read-only changes the topmost mount's flag. */
  function SetReadOnly(mounts: Table, path: Path): Table {
    var stack := At(mounts, path);
    if stack == [] then mounts else mounts[path := stack[|stack| - 1 := stack[|stack| - 1].(ro := true)]]
  }

  /** os.RemoveAll: on a path that is still mounted it would delete the pins inside. */
  function RemoveAll(h: Host, path: Path): Host {
    var top := Top(h.mounts, path);
    if top.None? then h else h.(contents := h.contents[top.value.fs := {}])
  }

  /** Names bpffs reserves: no map can be pinned under them, and publishMatches leaves them out. */
  predicate Reserved(name: string) {
    name == "maps.debug" || name == "progs.debug"
  }

  /** checkPathElement: a map name is a single path element. */
  predicate PathElement(name: string) {
    '/' !in name && name != "." && name != ".."
  }

  predicate AcceptableMaps(maps: seq<string>) {
    maps != [] && forall name :: name in maps ==> PathElement(name)
  }

  /** publishMatches on the mount at the target; neither list has repeats, so comparing them is comparing sets. */
  predicate Matches(h: Host, m: Mount, maps: seq<string>, ro: bool) {
    m.ro == ro && m.fs in h.contents && h.contents[m.fs] == Elements(maps)
  }

  // The steps. Each changes the host and says where its call goes next.

  datatype Next = Goto(phase: Phase) | Done(code: Code)

  datatype Effect = Effect(host: Host, next: Next)

  function StepCheck(h: Host, op: Op, fate: Fate): Next {
    var top := Top(h.mounts, Target(op.target));
    if !fate.Fine? then Done(Internal)
    else if top.None? then Goto(Find)
    else if !top.value.bpf then Done(FailedPrecondition)
    else if Matches(h, top.value, op.maps, op.ro) then Done(OK)
    else Done(AlreadyExists)
  }

  /** cleanupMount: unmount, then remove the directory. */
  function Cleanup(h: Host, path: Path, fate: Fate): Host {
    match fate
    case Fine => RemoveAll(h.(mounts := Unmount(h.mounts, path)), path)
    case Missing | Fails => h
    case FailsLate => h.(mounts := Unmount(h.mounts, path))
  }

  /** Mounting on a path a new file system, or one that another mount already shows. */
  function Mounted(h: Host, path: Path, m: Mount): Host {
    var mounts := Push(h.mounts, path, m);
    if m.fs == h.nextFs then Host(mounts, h.contents[m.fs := {}], h.nextFs + 1) else h.(mounts := mounts)
  }

  function StepMountPod(h: Host, v: VolumeId, fate: Fate): Effect {
    if AtOnce(fate) then Effect(h, Goto(UndoTarget(Internal)))
    else Effect(Mounted(h, Pod(v), Mount(true, h.nextFs, false)), Goto(if fate.Fine? then Pin(0) else UndoTarget(Internal)))
  }

  predicate CanPin(h: Host, v: VolumeId, name: string) {
    var top := Top(h.mounts, Pod(v));
    top.Some? && top.value.fs in h.contents && name !in h.contents[top.value.fs] && !Reserved(name)
  }

  function Pinned(h: Host, v: VolumeId, name: string): Host
    requires CanPin(h, v, name)
  {
    var f := Top(h.mounts, Pod(v)).value.fs;
    h.(contents := h.contents[f := h.contents[f] + {name}])
  }

  function StepPin(h: Host, v: VolumeId, op: Op, i: nat, fate: Fate): Effect {
    if AtOnce(fate) || i >= |op.maps| || !CanPin(h, v, op.maps[i]) then
      Effect(h, Goto(UndoTarget(if fate.Missing? then NotFound else Internal)))
    else
      Effect(Pinned(h, v, op.maps[i]),
             Goto(if fate.FailsLate? then UndoTarget(Internal) else if i + 1 == |op.maps| then Bind else Pin(i + 1)))
  }

  function StepBind(h: Host, v: VolumeId, op: Op, fate: Fate): Effect {
    var top := Top(h.mounts, Pod(v));
    if !fate.Fine? || top.None? then Effect(h, Goto(UndoTarget(Internal)))
    else Effect(Mounted(h, Target(op.target), Mount(true, top.value.fs, false)), if op.ro then Goto(Remount) else Done(OK))
  }

  function StepRemount(h: Host, op: Op, fate: Fate): Effect {
    if !fate.Fine? then Effect(h, Goto(UndoTarget(Internal)))
    else Effect(h.(mounts := SetReadOnly(h.mounts, Target(op.target))), Done(OK))
  }

  function StepOp(h: Host, v: VolumeId, op: Op, fate: Fate): Effect {
    match op.phase
    case Check => Effect(h, StepCheck(h, op, fate))
    case Find => Effect(h, match fate case Fine => Goto(Stale) case Missing => Done(NotFound) case _ => Done(Internal))
    case Stale =>
      Effect(if Top(h.mounts, Pod(v)).None? then h else Cleanup(h, Pod(v), fate),
             Goto(if fate.Fine? then MountPod else UndoTarget(Internal)))
    case MountPod => StepMountPod(h, v, fate)
    case Pin(i) => StepPin(h, v, op, i, fate)
    case Bind => StepBind(h, v, op, fate)
    case Remount => StepRemount(h, op, fate)
    case UndoTarget(cause) =>
      Effect(if fate.Fine? then h.(mounts := Unmount(h.mounts, Target(op.target))) else h, Goto(UndoPod(cause)))
    case UndoPod(cause) => Effect(Cleanup(h, Pod(v), fate), Done(cause))
    case DropTarget => Effect(Cleanup(h, Target(op.target), fate), if fate.Fine? then Goto(DropPod) else Done(Internal))
    case DropPod => Effect(Cleanup(h, Pod(v), fate), Done(OK))
  }

  predicate Dropping(op: Op) {
    op.phase.DropTarget? || op.phase.DropPod?
  }

  function Say(s: State, v: VolumeId, t: string, publish: bool, code: Code): State {
    s.(replies := s.replies + [Reply(v, t, publish, code)])
  }

  function StepAdvance(s: State, v: VolumeId, fate: Fate): State
    requires v in s.inflight
  {
    var op := s.inflight[v];
    var e := StepOp(s.host, v, op, fate);
    match e.next
    case Goto(phase) => s.(host := e.host, inflight := s.inflight[v := op.(phase := phase)])
    case Done(code) => Say(s.(host := e.host, inflight := s.inflight - {v}), v, op.target, !Dropping(op), code)
  }

  /** A call whose volume is in flight is refused; a crash forgets every call and every lock. */
  function Step(s: State, e: Event): State {
    match e
    case BeginPublish(v, t, attribute, ro) =>
      var maps := Names(attribute);
      if !AcceptableMaps(maps) then Say(s, v, t, true, InvalidArgument)
      else if v in s.inflight then Say(s, v, t, true, Aborted)
      else s.(inflight := s.inflight[v := Op(t, maps, ro, Check)])
    case BeginUnpublish(v, t) =>
      if v in s.inflight then Say(s, v, t, false, Aborted)
      else s.(inflight := s.inflight[v := Op(t, [], false, DropTarget)])
    case Advance(v, fate) => if v in s.inflight then StepAdvance(s, v, fate) else s
    case Crash => s.(inflight := map[])
  }

  function RunFrom(s: State, events: seq<Event>): State
    decreases |events|
  {
    if events == [] then s else RunFrom(Step(s, events[0]), events[1..])
  }

  function Run(events: seq<Event>): State {
    RunFrom(State(Host(map[], map[], 0), map[], []), events)
  }

  /** Each target belongs to one volume, as the orchestrator allots them. */
  ghost predicate Allotted(events: seq<Event>, volumeOf: string -> VolumeId) {
    forall e :: e in events && (e.BeginPublish? || e.BeginUnpublish?) ==> volumeOf(e.target) == e.volume
  }

  // The invariant.

  ghost function VolumeAt(path: Path, volumeOf: string -> VolumeId): VolumeId {
    if path.Pod? then path.volume else volumeOf(path.target)
  }

  /** The one mount at a path, or none. */
  ghost predicate Single(h: Host, path: Path) {
    var stack := At(h.mounts, path);
    |stack| <= 1 && (stack != [] ==> stack[0].bpf && stack[0].fs in h.contents)
  }

  /** The path shows file system f. */
  ghost predicate Shows(h: Host, path: Path, f: FsId) {
    Top(h.mounts, path).Some? && Top(h.mounts, path).value.fs == f
  }

  ghost predicate TableOk(h: Host, volumeOf: string -> VolumeId) {
    && (forall path :: Single(h, path))
    && (forall f :: f in h.contents ==> f < h.nextFs)
    && (forall p, q, f :: Shows(h, p, f) && Shows(h, q, f) ==> VolumeAt(p, volumeOf) == VolumeAt(q, volumeOf))
  }

  ghost predicate Bare(h: Host, path: Path) {
    At(h.mounts, path) == []
  }

  /** The per-pod file system holds exactly these maps and shows nowhere else. */
  ghost predicate PodHolds(h: Host, v: VolumeId, maps: set<string>) {
    && Top(h.mounts, Pod(v)).Some?
    && var f := Top(h.mounts, Pod(v)).value.fs;
    && f in h.contents && h.contents[f] == maps
    && forall path :: Shows(h, path, f) ==> path == Pod(v)
  }

  /** The target shows a file system that holds exactly these maps. */
  ghost predicate Published(h: Host, target: string, maps: set<string>, ro: bool) {
    && Top(h.mounts, Target(target)).Some?
    && var m := Top(h.mounts, Target(target)).value;
    && m.ro == ro && m.fs in h.contents && h.contents[m.fs] == maps
  }

  /** The bind mount that a read-only publish has yet to turn read-only. */
  ghost predicate Writable(h: Host, op: Op) {
    op.ro && Published(h, op.target, Elements(op.maps), false)
  }

  ghost predicate PhaseOk(h: Host, v: VolumeId, op: Op) {
    match op.phase
    case Check | DropTarget => true
    case UndoTarget(cause) => cause in {NotFound, Internal} && (Bare(h, Target(op.target)) || Writable(h, op))
    case UndoPod(cause) => cause in {NotFound, Internal} && (Bare(h, Target(op.target)) || Writable(h, op))
    case Find | Stale | DropPod => Bare(h, Target(op.target))
    case MountPod => Bare(h, Target(op.target)) && Bare(h, Pod(v))
    case Pin(i) => Bare(h, Target(op.target)) && i < |op.maps| && PodHolds(h, v, Elements(op.maps[..i]))
    case Bind => Bare(h, Target(op.target)) && PodHolds(h, v, Elements(op.maps))
    case Remount => Writable(h, op)
  }

  ghost predicate OpOk(h: Host, v: VolumeId, op: Op, volumeOf: string -> VolumeId) {
    volumeOf(op.target) == v && Distinct(op.maps) && (!Dropping(op) ==> op.maps != []) && PhaseOk(h, v, op)
  }

  ghost predicate Invariant(s: State, volumeOf: string -> VolumeId) {
    TableOk(s.host, volumeOf) && forall v :: v in s.inflight ==> OpOk(s.host, v, s.inflight[v], volumeOf)
  }

  /** What a step of volume v leaves alone: every other volume's mounts and what they show. */
  ghost predicate OthersKept(h: Host, h': Host, v: VolumeId, volumeOf: string -> VolumeId) {
    && (forall path :: VolumeAt(path, volumeOf) != v ==> At(h'.mounts, path) == At(h.mounts, path))
    && (forall path, f :: VolumeAt(path, volumeOf) != v && Shows(h, path, f) && f in h.contents ==>
          f in h'.contents && h'.contents[f] == h.contents[f])
  }

  lemma OthersUndisturbed(h: Host, h': Host, v: VolumeId, w: VolumeId, op: Op, volumeOf: string -> VolumeId)
    requires TableOk(h', volumeOf) && OthersKept(h, h', v, volumeOf) && w != v && OpOk(h, w, op, volumeOf)
    ensures OpOk(h', w, op, volumeOf)
  {
    assert VolumeAt(Target(op.target), volumeOf) == w && VolumeAt(Pod(w), volumeOf) == w;
    if op.phase.Pin? || op.phase.Bind? {
      var f := Top(h.mounts, Pod(w)).value.fs;
      assert Shows(h, Pod(w), f) && Shows(h', Pod(w), f);
      forall path | Shows(h', path, f) ensures path == Pod(w) {
        assert VolumeAt(path, volumeOf) == w;
        assert Shows(h, path, f);
      }
    } else if Writable(h, op) {
      assert Shows(h, Target(op.target), Top(h.mounts, Target(op.target)).value.fs);
    }
  }

  // The changes of the mount table.

  lemma UnmountKeeps(h: Host, path: Path, volumeOf: string -> VolumeId)
    requires TableOk(h, volumeOf)
    ensures var h' := h.(mounts := Unmount(h.mounts, path));
            && TableOk(h', volumeOf) && OthersKept(h, h', VolumeAt(path, volumeOf), volumeOf)
            && Bare(h', path) && RemoveAll(h', path) == h'
            && forall other :: other != path ==> At(h'.mounts, other) == At(h.mounts, other)
  {
    var h' := h.(mounts := Unmount(h.mounts, path));
    assert Single(h, path);
    forall other ensures Single(h', other) {
      assert Single(h, other);
    }
    assert forall p, f :: Shows(h', p, f) ==> Shows(h, p, f);
  }

  lemma CleanupKeeps(h: Host, path: Path, fate: Fate, volumeOf: string -> VolumeId)
    requires TableOk(h, volumeOf)
    ensures var h' := Cleanup(h, path, fate);
            && TableOk(h', volumeOf) && OthersKept(h, h', VolumeAt(path, volumeOf), volumeOf)
            && (!AtOnce(fate) ==> Bare(h', path)) && h'.contents == h.contents
            && forall other :: other != path ==> At(h'.mounts, other) == At(h.mounts, other)
  {
    UnmountKeeps(h, path, volumeOf);
  }

  /** In the other order the pins would be lost: the mount would still be there, and show nothing. */
  lemma RemovedFirst(h: Host, t: string, maps: set<string>, ro: bool)
    requires Published(h, t, maps, ro)
    ensures Published(RemoveAll(h, Target(t)), t, {}, ro)
  {}

  lemma MountKeeps(h: Host, path: Path, m: Mount, from: Path, volumeOf: string -> VolumeId)
    requires TableOk(h, volumeOf) && Bare(h, path) && m.bpf
    requires m.fs == h.nextFs || (Shows(h, from, m.fs) && VolumeAt(from, volumeOf) == VolumeAt(path, volumeOf))
    ensures var h' := Mounted(h, path, m);
            && TableOk(h', volumeOf) && OthersKept(h, h', VolumeAt(path, volumeOf), volumeOf)
            && Top(h'.mounts, path) == Some(m)
            && (forall other :: other != path ==> At(h'.mounts, other) == At(h.mounts, other))
            && (m.fs == h.nextFs ==> forall p :: Shows(h', p, m.fs) ==> p == path)
  {
    var h' := Mounted(h, path, m);
    assert Single(h, from);
    forall other ensures Single(h', other) {
      assert Single(h, other);
    }
    forall p: Path, f: FsId | Shows(h, p, f) ensures f in h.contents && f < h.nextFs {
      assert Single(h, p);
    }
    forall p: Path, f: FsId | Shows(h', p, f) && p != path ensures Shows(h, p, f) {}
  }

  /** Pinning a map in the per-pod file system, which shows nowhere else. */
  lemma PinKeeps(h: Host, v: VolumeId, maps: set<string>, name: string, volumeOf: string -> VolumeId)
    requires TableOk(h, volumeOf) && PodHolds(h, v, maps) && CanPin(h, v, name)
    ensures var h' := Pinned(h, v, name);
            TableOk(h', volumeOf) && OthersKept(h, h', v, volumeOf) && PodHolds(h', v, maps + {name})
  {
    var f := Top(h.mounts, Pod(v)).value.fs;
    var h' := Pinned(h, v, name);
    assert Shows(h, Pod(v), f);
    assert forall p: Path, g: FsId :: Shows(h', p, g) <==> Shows(h, p, g);
    forall other ensures Single(h', other) {
      assert Single(h, other);
    }
    forall path: Path, g: FsId | VolumeAt(path, volumeOf) != v && Shows(h, path, g) ensures g != f {}
  }

  lemma ReadOnlyKeeps(h: Host, t: string, maps: set<string>, volumeOf: string -> VolumeId)
    requires TableOk(h, volumeOf) && Published(h, t, maps, false)
    ensures var h' := h.(mounts := SetReadOnly(h.mounts, Target(t)));
            TableOk(h', volumeOf) && OthersKept(h, h', volumeOf(t), volumeOf) && Published(h', t, maps, true)
  {
    var h' := h.(mounts := SetReadOnly(h.mounts, Target(t)));
    assert Single(h, Target(t));
    assert forall p: Path, g: FsId :: Shows(h', p, g) <==> Shows(h, p, g);
    forall other ensures Single(h', other) {
      assert Single(h, other);
    }
  }

  // Each phase keeps the invariant.

  ghost predicate PinsKept(h: Host, h': Host) {
    forall f :: f in h.contents ==> f in h'.contents && h.contents[f] <= h'.contents[f]
  }

  ghost predicate OutcomeOk(h: Host, e: Effect, v: VolumeId, op: Op, volumeOf: string -> VolumeId) {
    && TableOk(e.host, volumeOf) && OthersKept(h, e.host, v, volumeOf) && PinsKept(h, e.host)
    && (e.next.Goto? ==> OpOk(e.host, v, op.(phase := e.next.phase), volumeOf))
    && (e.next == Done(OK) && !Dropping(op) ==> Published(e.host, op.target, Elements(op.maps), op.ro))
    && (e.next == Done(OK) && Dropping(op) ==> Bare(e.host, Target(op.target)))
    && (Failed(e.next) && PastCheck(op) ==> Bare(e.host, Target(op.target)) || Writable(e.host, op))
  }

  predicate Failed(next: Next) {
    next.Done? && next.code != OK
  }

  /** A publish that has found its target bare and works or rolls back. */
  predicate PastCheck(op: Op) {
    !op.phase.Check? && !Dropping(op)
  }

  lemma MountPodOk(h: Host, v: VolumeId, op: Op, fate: Fate, volumeOf: string -> VolumeId)
    requires TableOk(h, volumeOf) && OpOk(h, v, op, volumeOf) && op.phase.MountPod?
    ensures OutcomeOk(h, StepOp(h, v, op, fate), v, op, volumeOf)
  {
    MountKeeps(h, Pod(v), Mount(true, h.nextFs, false), Pod(v), volumeOf);
    assert Elements(op.maps[..0]) == {};
  }

  lemma PinOk(h: Host, v: VolumeId, op: Op, i: nat, fate: Fate, volumeOf: string -> VolumeId)
    requires TableOk(h, volumeOf) && OpOk(h, v, op, volumeOf) && op.phase == Pin(i)
    ensures OutcomeOk(h, StepOp(h, v, op, fate), v, op, volumeOf)
  {
    var maps := op.maps;
    if CanPin(h, v, maps[i]) {
      PinKeeps(h, v, Elements(maps[..i]), maps[i], volumeOf);
    }
    assert Elements(maps[..i + 1]) == Elements(maps[..i]) + {maps[i]};
    assert i + 1 == |maps| ==> maps[..i + 1] == maps;
  }

  lemma BindOk(h: Host, v: VolumeId, op: Op, fate: Fate, volumeOf: string -> VolumeId)
    requires TableOk(h, volumeOf) && OpOk(h, v, op, volumeOf) && op.phase.Bind?
    ensures OutcomeOk(h, StepOp(h, v, op, fate), v, op, volumeOf)
  {
    var m := Top(h.mounts, Pod(v)).value;
    assert Shows(h, Pod(v), m.fs) && Single(h, Pod(v));
    MountKeeps(h, Target(op.target), Mount(true, m.fs, false), Pod(v), volumeOf);
  }

  lemma RemountOk(h: Host, v: VolumeId, op: Op, fate: Fate, volumeOf: string -> VolumeId)
    requires TableOk(h, volumeOf) && OpOk(h, v, op, volumeOf) && op.phase.Remount?
    ensures OutcomeOk(h, StepOp(h, v, op, fate), v, op, volumeOf)
  {
    ReadOnlyKeeps(h, op.target, Elements(op.maps), volumeOf);
  }

  /** The steps that touch the per-pod path or the target by unmounting only. */
  lemma UnmountOk(h: Host, v: VolumeId, op: Op, fate: Fate, volumeOf: string -> VolumeId)
    requires TableOk(h, volumeOf) && OpOk(h, v, op, volumeOf)
    requires op.phase.Stale? || op.phase.UndoTarget? || op.phase.UndoPod? || Dropping(op)
    ensures OutcomeOk(h, StepOp(h, v, op, fate), v, op, volumeOf)
  {
    hide TableOk, OthersKept;
    assert VolumeAt(Target(op.target), volumeOf) == v && VolumeAt(Pod(v), volumeOf) == v;
    Untouched(h, v, volumeOf);
    CleanupKeeps(h, Pod(v), fate, volumeOf);
    CleanupKeeps(h, Target(op.target), fate, volumeOf);
    UnmountKeeps(h, Target(op.target), volumeOf);
  }

  lemma Untouched(h: Host, v: VolumeId, volumeOf: string -> VolumeId)
    ensures OthersKept(h, h, v, volumeOf)
  {}

  lemma LookOk(h: Host, v: VolumeId, op: Op, fate: Fate, volumeOf: string -> VolumeId)
    requires TableOk(h, volumeOf) && OpOk(h, v, op, volumeOf) && (op.phase.Check? || op.phase.Find?)
    ensures OutcomeOk(h, StepOp(h, v, op, fate), v, op, volumeOf)
  {
    hide TableOk, OthersKept;
    Untouched(h, v, volumeOf);
  }

  /** A publish that replies OK has published, one that fails leaves its target bare or with the bind mount it
      could not make read-only; an unpublish that replies OK has unmounted the target. */
  lemma OpKeeps(h: Host, v: VolumeId, op: Op, fate: Fate, volumeOf: string -> VolumeId)
    requires TableOk(h, volumeOf) && OpOk(h, v, op, volumeOf)
    ensures OutcomeOk(h, StepOp(h, v, op, fate), v, op, volumeOf)
  {
    hide TableOk, OpOk, OutcomeOk, StepOp;
    match op.phase
    case Check | Find => LookOk(h, v, op, fate, volumeOf);
    case MountPod => MountPodOk(h, v, op, fate, volumeOf);
    case Pin(i) => PinOk(h, v, op, i, fate, volumeOf);
    case Bind => BindOk(h, v, op, fate, volumeOf);
    case Remount => RemountOk(h, v, op, fate, volumeOf);
    case _ => UnmountOk(h, v, op, fate, volumeOf);
  }
}
