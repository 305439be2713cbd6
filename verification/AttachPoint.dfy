/** One attach point (a dispatcher key) as its three parts hold it: the stored snapshot, the kernel
    objects and the bpffs pins, with the effect of each store and kernel call. */
module AttachPoint {
  import opened Options
  import opened ProceedOn
  import opened Chain
  import opened RebuildSlots

  type Revision = nat
  type Handle = nat

  /** A loaded dispatcher program: its frozen config and what each of its stubs was replaced by. */
  datatype Dispatcher = Dispatcher(cfg: Config, slots: seq<Option<ProgramId>>)

  datatype ExtLink = ExtLink(kernelId: nat, target: ProgramId)

  datatype Kernel = Kernel(
    progs: map<ProgramId, Dispatcher>, xdpLink: Option<ProgramId>, filters: map<Handle, ProgramId>, nextId: nat)

  /** The dispatcher pin and the link_N pins of each revision directory. */
  datatype BpfFs = BpfFs(progPins: map<Revision, ProgramId>, linkPins: map<(Revision, nat), ExtLink>)

  datatype Member = Member(
    linkId: LinkId, ext: Ext, metadata: map<string, string>, kernelLink: nat, position: nat)

  /** filterHandle is 0 for XDP. */
  datatype Snapshot = Snapshot(revision: Revision, programId: ProgramId, filterHandle: Handle, members: seq<Member>)

  datatype Point = Point(snap: Option<Snapshot>, kernel: Kernel, fs: BpfFs)

  /** Revisions are uint32 and wrap. */
  const REVISIONS: nat := 0x1_0000_0000

  function NextRevision(snap: Option<Snapshot>): Revision {
    if snap.None? then 1 else (snap.value.revision + 1) % REVISIONS
  }

  function NoSlots(): seq<Option<ProgramId>> {
    seq(MAX_PROGRAMS, i => None)
  }

  function Members(p: Point): seq<Member> {
    if p.snap.Some? then p.snap.value.members else []
  }

  function ConfigOf(slots: seq<Slot>): Config
    requires |slots| <= MAX_PROGRAMS
  {
    Config(|slots|, Padded(seq(|slots|, i requires 0 <= i < |slots| => slots[i].ext.proceedOn)))
  }

  /** The stubs after the first k slots have been attached. */
  function Filled(slots: seq<Slot>, k: nat): seq<Option<ProgramId>>
    requires k <= |slots| <= MAX_PROGRAMS
  {
    seq(MAX_PROGRAMS, i requires 0 <= i < MAX_PROGRAMS => if i < k then Some(slots[i].ext.programId) else None)
  }

  // The calls.

  function Load(p: Point, rev: Revision, cfg: Config): Point {
    var id := p.kernel.nextId;
    p.(kernel := p.kernel.(progs := p.kernel.progs[id := Dispatcher(cfg, NoSlots())], nextId := id + 1),
       fs := p.fs.(progPins := p.fs.progPins[rev := id]))
  }

  predicate CanAttachExt(p: Point, rev: Revision, pos: nat) {
    && rev in p.fs.progPins && p.fs.progPins[rev] in p.kernel.progs
    && pos < MAX_PROGRAMS == |p.kernel.progs[p.fs.progPins[rev]].slots|
    && (rev, pos) !in p.fs.linkPins
  }

  function AttachExt(p: Point, rev: Revision, pos: nat, prog: ProgramId): Point
    requires CanAttachExt(p, rev, pos)
  {
    var id, link := p.fs.progPins[rev], p.kernel.nextId;
    var d := p.kernel.progs[id];
    p.(kernel := p.kernel.(progs := p.kernel.progs[id := d.(slots := d.slots[pos := Some(prog)])], nextId := link + 1),
       fs := p.fs.(linkPins := p.fs.linkPins[(rev, pos) := ExtLink(link, id)]))
  }

  /** Detaching an extension puts the stub back; a pin already gone is success. */
  function DetachExt(p: Point, rev: Revision, pos: nat): Point {
    if (rev, pos) !in p.fs.linkPins then p
    else
      var id := p.fs.linkPins[(rev, pos)].target;
      var fs := p.fs.(linkPins := p.fs.linkPins - {(rev, pos)});
      if id in p.kernel.progs && pos < |p.kernel.progs[id].slots| then
        var d := p.kernel.progs[id];
        p.(kernel := p.kernel.(progs := p.kernel.progs[id := d.(slots := d.slots[pos := None])]), fs := fs)
      else p.(fs := fs)
  }

  function RemoveProgPin(p: Point, rev: Revision): Point {
    p.(fs := p.fs.(progPins := p.fs.progPins - {rev}))
  }

  /** The slots of d once the links of revision rev are released. */
  function Released(p: Point, id: ProgramId, d: Dispatcher, rev: Revision): Dispatcher {
    d.(slots := seq(|d.slots|, i requires 0 <= i < |d.slots| =>
      if (rev, i) in p.fs.linkPins && p.fs.linkPins[(rev, i)].target == id then None else d.slots[i]))
  }

  /** Removing a revision directory drops all its pins, and with its links the slots they held. */
  function RemoveRevDir(p: Point, rev: Revision): Point {
    p.(kernel := p.kernel.(progs := map id | id in p.kernel.progs :: Released(p, id, p.kernel.progs[id], rev)),
       fs := BpfFs(p.fs.progPins - {rev}, map k | k in p.fs.linkPins && k.0 != rev :: p.fs.linkPins[k]))
  }

  lemma ReleasedOnce(p: Point, rev: Revision, pos: nat, id: ProgramId)
    requires id in p.kernel.progs
    ensures var q := DetachExt(p, rev, pos);
            id in q.kernel.progs && Released(q, id, q.kernel.progs[id], rev) == Released(p, id, p.kernel.progs[id], rev)
  {
    var q := DetachExt(p, rev, pos);
    var was, now := Released(p, id, p.kernel.progs[id], rev), Released(q, id, q.kernel.progs[id], rev);
    assert |now.slots| == |was.slots|;
    forall i | 0 <= i < |was.slots| ensures now.slots[i] == was.slots[i] {
      assert (rev, i) in q.fs.linkPins <==> (rev, i) in p.fs.linkPins && !(i == pos);
    }
    assert now.slots == was.slots;
  }

  /** Removing the directory includes detaching any link pinned in it. */
  lemma RevDirDetaches(p: Point, rev: Revision, pos: nat)
    ensures RemoveRevDir(DetachExt(p, rev, pos), rev) == RemoveRevDir(p, rev)
  {
    hide Released;
    var q := DetachExt(p, rev, pos);
    forall id | id in p.kernel.progs
      ensures id in q.kernel.progs && Released(q, id, q.kernel.progs[id], rev) == Released(p, id, p.kernel.progs[id], rev)
    {
      ReleasedOnce(p, rev, pos, id);
    }
    assert RemoveRevDir(q, rev).kernel.progs == RemoveRevDir(p, rev).kernel.progs;
    assert RemoveRevDir(q, rev).fs.linkPins == RemoveRevDir(p, rev).fs.linkPins;
  }

  /** Afterwards nothing of the revision is pinned, and its links hold no slot; everything else is as it was. */
  lemma RevDirGone(p: Point, rev: Revision, id: ProgramId, pos: nat)
    requires id in p.kernel.progs && pos < |p.kernel.progs[id].slots|
    ensures var b := RemoveRevDir(p, rev);
            && rev !in b.fs.progPins && (forall i: nat :: (rev, i) !in b.fs.linkPins)
            && id in b.kernel.progs && |b.kernel.progs[id].slots| == |p.kernel.progs[id].slots|
            && b.kernel.progs[id].slots[pos] ==
               (if (rev, pos) in p.fs.linkPins && p.fs.linkPins[(rev, pos)].target == id then None
                else p.kernel.progs[id].slots[pos])
            && forall k :: k in p.fs.linkPins && k.0 != rev ==> k in b.fs.linkPins && b.fs.linkPins[k] == p.fs.linkPins[k]
  {}

  function WithXdpLink(p: Point, link: Option<ProgramId>): Point {
    p.(kernel := p.kernel.(xdpLink := link))
  }

  function WithFilters(p: Point, filters: map<Handle, ProgramId>): Point {
    p.(kernel := p.kernel.(filters := filters))
  }

  function CountNew(slots: seq<Slot>): nat {
    if slots == [] then 0 else CountNew(slots[..|slots| - 1]) + if slots[|slots| - 1].existing.None? then 1 else 0
  }

  /** Existing members keep their link ID; new ones get the store's next ones, in slot order. */
  function MemberLinkId(slots: seq<Slot>, i: nat, next: LinkId): LinkId
    requires i < |slots|
  {
    if slots[i].existing.Some? then slots[i].existing.value else next + CountNew(slots[..i])
  }

  function Complete(slots: seq<Slot>, links: seq<nat>, next: LinkId): (members: seq<Member>)
    requires |links| == |slots|
    ensures |members| == |slots|
  {
    seq(|slots|, i requires 0 <= i < |slots| =>
      Member(MemberLinkId(slots, i, next), slots[i].ext, slots[i].metadata, links[i], i))
  }

  /** The row constraints of the store: revision at least 1, positions 0 to 9, decodable masks. */
  predicate CanPersist(dt: DispatcherType, rev: Revision, slots: seq<Slot>) {
    && rev >= 1 && |slots| <= MAX_PROGRAMS
    && forall i :: 0 <= i < |slots| ==> Decodable(dt, slots[i].ext.proceedOn)
  }

  // What an operation leaves alone and what it commits.

  /** Every dispatcher program of a is in b as it was. */
  ghost predicate KeepsProgs(a: Point, b: Point) {
    forall id :: id in a.kernel.progs ==> id in b.kernel.progs && b.kernel.progs[id] == a.kernel.progs[id]
  }

  ghost predicate FreshIds(p: Point) {
    forall id :: id in p.kernel.progs ==> id < p.kernel.nextId
  }

  /** Same row, same attachment, and nothing loaded before has changed. */
  ghost predicate SameService(a: Point, b: Point) {
    && b.snap == a.snap && b.kernel.xdpLink == a.kernel.xdpLink && b.kernel.filters == a.kernel.filters
    && KeepsProgs(a, b) && FreshIds(b)
  }

  ghost predicate Restored(a: Point, b: Point) {
    SameService(a, b) && b.fs == a.fs
  }

  /** b has, beyond a, the pins of revision rev: dispatcher id and the links lo to hi. */
  ghost predicate Residue(a: Point, b: Point, rev: Revision, id: ProgramId, lo: nat, hi: nat) {
    && SameService(a, b) && id !in a.kernel.progs
    && b.fs.progPins == a.fs.progPins[rev := id]
    && (forall k :: k in b.fs.linkPins <==> k in a.fs.linkPins || (k.0 == rev && lo <= k.1 < hi))
    && (forall k :: k in a.fs.linkPins ==> b.fs.linkPins[k] == a.fs.linkPins[k])
    && (forall j: nat :: lo <= j < hi ==> b.fs.linkPins[(rev, j)].target == id)
  }

  /** The new dispatcher is loaded and the first |links| of its slots are attached. */
  ghost predicate Staged(a: Point, b: Point, rev: Revision, slots: seq<Slot>, id: ProgramId, links: seq<nat>) {
    && |links| <= |slots| <= MAX_PROGRAMS
    && Residue(a, b, rev, id, 0, |links|)
    && id in b.kernel.progs
    && b.kernel.progs[id] == Dispatcher(ConfigOf(slots), Filled(slots, |links|))
    && (forall j: nat :: j < |links| ==> b.fs.linkPins[(rev, j)] == ExtLink(links[j], id))
  }

  /** No pin of revision rev exists. */
  ghost predicate Unused(p: Point, rev: Revision) {
    rev !in p.fs.progPins && forall k :: k in p.fs.linkPins ==> k.0 != rev
  }

  lemma LoadStages(a: Point, rev: Revision, slots: seq<Slot>)
    requires FreshIds(a) && Unused(a, rev) && |slots| <= MAX_PROGRAMS
    ensures Staged(a, Load(a, rev, ConfigOf(slots)), rev, slots, a.kernel.nextId, [])
  {
    assert Filled(slots, 0) == NoSlots();
  }

  lemma AttachStages(a: Point, b: Point, rev: Revision, slots: seq<Slot>, id: ProgramId, links: seq<nat>)
    requires Unused(a, rev) && Staged(a, b, rev, slots, id, links) && |links| < |slots|
    ensures CanAttachExt(b, rev, |links|)
    ensures Staged(a, AttachExt(b, rev, |links|, slots[|links|].ext.programId), rev, slots, id, links + [b.kernel.nextId])
  {
    var c := AttachExt(b, rev, |links|, slots[|links|].ext.programId);
    assert Filled(slots, |links| + 1) == Filled(slots, |links|)[|links| := Some(slots[|links|].ext.programId)];
    assert b.fs.progPins[rev] == id;
    assert Residue(a, c, rev, id, 0, |links| + 1);
  }

  lemma DetachResidue(a: Point, b: Point, rev: Revision, id: ProgramId, lo: nat, hi: nat)
    requires Unused(a, rev) && Residue(a, b, rev, id, lo, hi) && lo < hi
    ensures Residue(a, DetachExt(b, rev, lo), rev, id, lo + 1, hi)
  {
    assert b.fs.linkPins[(rev, lo)].target == id;
  }

  /** Whichever way the source drops the last pins, nothing of the revision is left. */
  lemma DropResidue(a: Point, b: Point, rev: Revision, id: ProgramId, n: nat)
    requires Unused(a, rev) && Residue(a, b, rev, id, n, n)
    ensures Restored(a, RemoveProgPin(b, rev))
    ensures Restored(a, RemoveRevDir(b, rev))
  {
    assert b.fs.progPins - {rev} == a.fs.progPins;
    assert b.fs.linkPins == a.fs.linkPins;
    assert (map k | k in b.fs.linkPins && k.0 != rev :: b.fs.linkPins[k]) == a.fs.linkPins;
    forall x | x in b.kernel.progs ensures Released(b, x, b.kernel.progs[x], rev) == b.kernel.progs[x] {
      assert forall i: nat :: (rev, i) !in b.fs.linkPins;
    }
  }
}
