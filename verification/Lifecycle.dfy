/** Loading a batch of programs and unloading them: the store's rows and map sets, the pins in bpffs and the
    published bytecode are kept in step through failures. */
module Lifecycle {

  import opened Options

  type Id = nat

  /** What to load: the source's load spec is opaque but for the program whose maps it shares. */
  datatype Spec = Spec(name: string, owner: Option<Id>)

  datatype Loaded = Loaded(id: Id, spec: Spec)

  /** The store's program rows and map-set rows, the program pins, the map directories and the bytecode
      directories. A map set and its directory are named by the program that created them. */
  datatype Disk = Disk(rows: map<Id, Spec>, sets: set<Id>, pins: set<Id>, dirs: set<Id>, bytecode: set<Id>)

  function SetOf(id: Id, spec: Spec): Id {
    if spec.owner.Some? then spec.owner.value else id
  }

  ghost predicate Uses(d: Disk, id: Id, mapSet: Id) {
    id in d.rows && SetOf(id, d.rows[id]) == mapSet
  }

  ghost predicate Unused(d: Disk, mapSet: Id) {
    forall id :: !Uses(d, id, mapSet)
  }

  /** Every stored program's map set has its row, as the store's foreign key demands. */
  ghost predicate Linked(d: Disk) {
    forall id :: id in d.rows ==> SetOf(id, d.rows[id]) in d.sets
  }

  /** Every stored program's map set has its row and its directory. */
  ghost predicate Coherent(d: Disk) {
    forall id :: id in d.rows ==> SetOf(id, d.rows[id]) in d.sets && SetOf(id, d.rows[id]) in d.dirs
  }

  /** Nothing on the disk carries this id. */
  ghost predicate Unknown(d: Disk, id: Id) {
    id !in d.rows && id !in d.sets && id !in d.pins && id !in d.dirs && id !in d.bytecode
  }

  // What a batch adds.

  /** After phase A: pins, directories and bytecode, no rows. */
  function Staged(d: Disk, items: seq<Loaded>): Disk {
    if items == [] then d
    else
      var before, x := Staged(d, items[..|items| - 1]), items[|items| - 1];
      before.(pins := before.pins + {x.id}, dirs := if x.spec.owner.None? then before.dirs + {x.id} else before.dirs,
              bytecode := before.bytecode + {x.id})
  }

  /** After phase B: the rows and the map sets as well. */
  function Saved(d: Disk, items: seq<Loaded>): Disk {
    if items == [] then d
    else
      var before, x := Saved(d, items[..|items| - 1]), items[|items| - 1];
      before.(rows := before.rows[x.id := x.spec], sets := if x.spec.owner.None? then before.sets + {x.id} else before.sets)
  }

  ghost predicate DistinctIds(items: seq<Loaded>) {
    forall i, j :: 0 <= i < j < |items| ==> items[i].id != items[j].id
  }

  /** Staging adds exactly the batch's ids to the pins and the bytecode, and to the directories those
      that own their maps. */
  lemma {:induction false} StagedIs(d: Disk, items: seq<Loaded>)
    ensures var s := Staged(d, items);
            && s.rows == d.rows && s.sets == d.sets
            && (forall id :: id in s.pins <==> id in d.pins || exists x :: x in items && x.id == id)
            && (forall id :: id in s.bytecode <==> id in d.bytecode || exists x :: x in items && x.id == id)
            && (forall id :: id in s.dirs <==> id in d.dirs || exists x :: x in items && x.id == id && x.spec.owner.None?)
  {
    if items != [] {
      StagedIs(d, items[..|items| - 1]);
      assert items == items[..|items| - 1] + [items[|items| - 1]];
    }
  }

  /** Saving adds a row for each item, with its spec, and a map set for each that owns its maps. */
  lemma {:induction false} SavedIs(d: Disk, items: seq<Loaded>)
    requires DistinctIds(items)
    ensures var s := Saved(d, items);
            && s.pins == d.pins && s.dirs == d.dirs && s.bytecode == d.bytecode
            && (forall id :: id in s.rows <==> id in d.rows || exists x :: x in items && x.id == id)
            && (forall x :: x in items ==> s.rows[x.id] == x.spec)
            && (forall id :: id in d.rows && (forall x :: x in items ==> x.id != id) ==> s.rows[id] == d.rows[id])
            && (forall id :: id in s.sets <==> id in d.sets || exists x :: x in items && x.id == id && x.spec.owner.None?)
  {
    if items != [] {
      SavedIs(d, items[..|items| - 1]);
      assert items == items[..|items| - 1] + [items[|items| - 1]];
    }
  }

  // The calls' effects.

  function KernelLoaded(d: Disk, id: Id, spec: Spec): Disk {
    d.(pins := d.pins + {id}, dirs := if spec.owner.None? then d.dirs + {id} else d.dirs)
  }

  lemma StagedOne(d: Disk, id: Id, spec: Spec)
    ensures Staged(d, [Loaded(id, spec)]) == var k := KernelLoaded(d, id, spec); k.(bytecode := k.bytecode + {id})
  {
    assert [Loaded(id, spec)][..0] == [];
  }

  /** The load plan's undo: the program pin and the directory the program's maps are pinned in. */
  function PlanUndone(d: Disk, id: Id, spec: Spec): Disk {
    d.(pins := d.pins - {id}, dirs := d.dirs - {SetOf(id, spec)})
  }

  lemma UndoIs(d: Disk, id: Id, spec: Spec)
    ensures var u := PlanUndone(d, id, spec);
            u == d.(pins := u.pins, dirs := u.dirs) && u.dirs <= d.dirs && (spec.owner.None? ==> d.dirs - {id} <= u.dirs)
  {}

  predicate InUse(d: Disk, mapSet: Id) {
    exists id :: id in d.rows && SetOf(id, d.rows[id]) == mapSet
  }

  function RowGone(d: Disk, id: Id, mapSet: Id): Disk {
    var gone := d.(rows := d.rows - {id});
    if InUse(gone, mapSet) then gone else gone.(dirs := gone.dirs - {mapSet}, sets := gone.sets - {mapSet})
  }

  /** Pins and bytecode play no part in what rows, sets and directories say. */
  lemma FilesApart(d: Disk, pins: set<Id>, bytecode: set<Id>)
    ensures var e := d.(pins := pins, bytecode := bytecode);
            && (Linked(e) <==> Linked(d)) && (Coherent(e) <==> Coherent(d))
            && (forall s :: Unused(e, s) <==> Unused(d, s))
            && forall id, s :: RowGone(e, id, s) == RowGone(d, id, s).(pins := pins, bytecode := bytecode)
  {
    var e := d.(pins := pins, bytecode := bytecode);
    assert forall s :: Unused(e, s) <==> Unused(d, s) by {
      assert forall id, s :: Uses(e, id, s) <==> Uses(d, id, s);
    }
    forall id, s ensures RowGone(e, id, s) == RowGone(d, id, s).(pins := pins, bytecode := bytecode) {
      assert InUse(e.(rows := d.rows - {id}), s) <==> InUse(d.(rows := d.rows - {id}), s);
    }
  }

  /** An unload of which no step fails. */
  function Unloaded(d: Disk, id: Id, spec: Spec, persisted: bool): Disk {
    var mapSet := SetOf(id, spec);
    var bare := d.(pins := d.pins - {id}, bytecode := d.bytecode - {id});
    if persisted then RowGone(bare, id, mapSet)
    else if mapSet == id && id !in d.sets then bare.(dirs := bare.dirs - {id})
    else bare
  }

  /** Unloading keeps every remaining program's map set; the last member takes the set with it. */
  lemma UnloadedIs(d: Disk, id: Id)
    requires Coherent(d) && id in d.rows
    ensures var d' := Unloaded(d, id, d.rows[id], true);
            && Coherent(d') && d'.rows == d.rows - {id}
            && (forall s :: s in d.dirs && s !in d'.dirs ==> Unused(d', s))
            && (Unused(d', SetOf(id, d.rows[id])) ==> SetOf(id, d.rows[id]) !in d'.dirs + d'.sets)
            && d'.pins == d.pins - {id} && d'.bytecode == d.bytecode - {id}
  {
    var mapSet, d' := SetOf(id, d.rows[id]), Unloaded(d, id, d.rows[id], true);
    forall other | other in d'.rows ensures SetOf(other, d'.rows[other]) in d'.sets && SetOf(other, d'.rows[other]) in d'.dirs {
      assert d'.rows[other] == d.rows[other];
    }
    if !InUse(d.(rows := d.rows - {id}), mapSet) {
      assert forall other :: other in d'.rows ==> SetOf(other, d'.rows[other]) != mapSet;
    } else {
      var user :| user in d'.rows && SetOf(user, d'.rows[user]) == mapSet;
      assert Uses(d', user, mapSet);
    }
  }

  /** The undo of a failed publish keeps the store's map sets exactly when no stored program uses the new
      program's set: always for a program with maps of its own, never for one that shares with a stored one. */
  lemma UndoKeepsSets(d: Disk, id: Id, spec: Spec)
    requires Coherent(d) && Unknown(d, id)
    ensures var d' := PlanUndone(KernelLoaded(d, id, spec), id, spec);
            && (Coherent(d') <==> Unused(d, SetOf(id, spec)))
            && (spec.owner.None? ==> d' == d)
            && (spec.owner.Some? && spec.owner.value in d.rows && d.rows[spec.owner.value].owner.None? ==> !Coherent(d'))
  {
    var d' := PlanUndone(KernelLoaded(d, id, spec), id, spec);
    var mapSet := SetOf(id, spec);
    assert d'.rows == d.rows && d'.sets == d.sets;
    if !Unused(d, mapSet) {
      var user :| Uses(d, user, mapSet);
      assert mapSet !in d'.dirs;
    } else {
      assert forall user :: user in d.rows ==> !Uses(d, user, mapSet);
    }
    if spec.owner.None? {
      assert d'.dirs == d.dirs && d'.pins == d.pins;
      assert forall user :: user in d.rows ==> SetOf(user, d.rows[user]) != id;
    } else if spec.owner.value in d.rows && d.rows[spec.owner.value].owner.None? {
      assert Uses(d, spec.owner.value, mapSet);
    }
  }

  /** Program 2, sharing the maps of program 1, fails to publish: program 1 stays stored without its maps. */
  lemma OwnerLosesMaps()
    ensures var d, sharer := Disk(map[1 := Spec("owner", None)], {1}, {1}, {1}, {1}), Spec("sharer", Some(1));
            var d' := PlanUndone(KernelLoaded(d, 2, sharer), 2, sharer);
            Coherent(d) && 1 in d'.rows && 1 in d'.sets && 1 !in d'.dirs && !Coherent(d')
  {
    var d := Disk(map[1 := Spec("owner", None)], {1}, {1}, {1}, {1});
    UndoKeepsSets(d, 2, Spec("sharer", Some(1)));
  }

  /** Rolling back the last staged item. */
  lemma UnstageLast(d: Disk, items: seq<Loaded>)
    requires items != [] && DistinctIds(items) && forall x :: x in items ==> Unknown(d, x.id)
    ensures var x := items[|items| - 1];
            Unloaded(Staged(d, items), x.id, x.spec, false) == Staged(d, items[..|items| - 1])
  {
    var init, x := items[..|items| - 1], items[|items| - 1];
    StagedIs(d, init);
    var before := Staged(d, init);
    hide Staged;
    assert x in items;
    assert forall y :: y in init ==> y.id != x.id;
    assert x.id !in before.pins && x.id !in before.bytecode && x.id !in before.dirs && x.id !in before.sets;
    assert before.pins + {x.id} - {x.id} == before.pins;
    assert before.bytecode + {x.id} - {x.id} == before.bytecode;
    assert before.dirs + {x.id} - {x.id} == before.dirs;
  }

  lemma SavedLinked(d: Disk, items: seq<Loaded>)
    requires Linked(d) && DistinctIds(items) && forall x :: x in items ==> Unknown(d, x.id)
    requires forall x :: x in items && x.spec.owner.Some? ==>
                           x.spec.owner.value in d.dirs && x.spec.owner.value in Saved(Staged(d, items), items).sets
    ensures Linked(Saved(Staged(d, items), items))
    ensures Coherent(d) ==> Coherent(Saved(Staged(d, items), items))
  {
    StagedIs(d, items);
    SavedIs(Staged(d, items), items);
    var d' := Saved(Staged(d, items), items);
    forall id | id in d'.rows
      ensures SetOf(id, d'.rows[id]) in d'.sets && (Coherent(d) ==> SetOf(id, d'.rows[id]) in d'.dirs)
    {
      if id !in d.rows {
        var x :| x in items && x.id == id;
        assert d'.rows[id] == x.spec;
      } else {
        assert forall x :: x in items ==> x.id != id;
      }
    }
  }

  /** Staging a batch beside a directory that none of its programs made. */
  lemma {:induction false} StagedWithout(d: Disk, items: seq<Loaded>, mapSet: Id)
    requires forall x :: x in items ==> x.id != mapSet
    ensures Staged(d.(dirs := d.dirs - {mapSet}), items) == Staged(d, items).(dirs := Staged(d, items).dirs - {mapSet})
  {
    if items != [] {
      var x := items[|items| - 1];
      assert x in items;
      StagedWithout(d, items[..|items| - 1], mapSet);
      assert Staged(d, items[..|items| - 1]).dirs + {x.id} - {mapSet} == Staged(d, items[..|items| - 1]).dirs - {mapSet} + {x.id};
    }
  }

  /** The batch in the order of its specs. */
  ghost predicate Batch(specs: seq<Spec>, items: seq<Loaded>) {
    |items| == |specs| && forall i :: 0 <= i < |items| ==> items[i].spec == specs[i]
  }

  /** validateExplicitMapOwners: every owner named has a map set. */
  ghost predicate OwnersKnown(d: Disk, specs: seq<Spec>) {
    forall spec :: spec in specs && spec.owner.Some? ==> spec.owner.value in d.sets
  }

  /** Items loaded for these specs on top of d: new, distinct ids, and owners whose maps are there. */
  ghost predicate BatchOf(d: Disk, specs: seq<Spec>, items: seq<Loaded>) {
    && Batch(specs, items) && DistinctIds(items)
    && (forall x :: x in items ==> Unknown(d, x.id))
    && (forall x :: x in items && x.spec.owner.Some? ==> x.spec.owner.value in d.dirs)
  }

  lemma BatchGrows(d: Disk, specs: seq<Spec>, items: seq<Loaded>, id: Id, spec: Spec)
    requires BatchOf(d, specs, items) && Unknown(d, id) && (forall x :: x in items ==> x.id != id)
    requires spec.owner.Some? ==> spec.owner.value in d.dirs
    ensures BatchOf(d, specs + [spec], items + [Loaded(id, spec)])
    ensures Staged(Staged(d, items), [Loaded(id, spec)]) == Staged(d, items + [Loaded(id, spec)])
  {
    assert (items + [Loaded(id, spec)])[..|items|] == items;
    assert [Loaded(id, spec)][..0] == [];
  }

  /** What a failed load leaves when its clean-up calls succeed: the disk as it was, but for the map
      directory of an owner named in the batch. */
  ghost predicate Restored(d: Disk, d': Disk, specs: seq<Spec>) {
    || d' == d
    || exists spec :: spec in specs && spec.owner.Some? && d' == d.(dirs := d.dirs - {spec.owner.value})
  }

  /** What it leaves in any case. */
  ghost predicate NothingSaved(d: Disk, d': Disk, specs: seq<Spec>) {
    && d'.rows == d.rows && d'.sets == d.sets && Linked(d')
    && (SelfOwned(specs) && Coherent(d) ==> Coherent(d'))
  }

  ghost predicate SelfOwned(specs: seq<Spec>) {
    forall spec :: spec in specs ==> spec.owner.None?
  }

  lemma FailedPlan(start: Disk, items: seq<Loaded>, id: Id, spec: Spec)
    requires Unknown(start, id) && forall x :: x in items ==> Unknown(start, x.id) && x.id != id
    requires spec.owner.Some? ==> spec.owner.value in start.sets
    ensures var from := start.(dirs := start.dirs - {SetOf(id, spec)});
            && PlanUndone(KernelLoaded(Staged(start, items), id, spec), id, spec) == Staged(from, items)
            && (spec.owner.None? ==> from == start)
  {
    StagedIs(start, items);
    var staged := Staged(start, items);
    assert staged.pins + {id} - {id} == staged.pins;
    assert spec.owner.None? ==> staged.dirs + {id} - {id} == staged.dirs - {id};
    StagedWithout(start, items, SetOf(id, spec));
    assert spec.owner.None? ==> start.dirs - {id} == start.dirs;
  }

  /** The store takes the batch: new rows and sets, and the sets that are shared. */
  ghost predicate Savable(d: Disk, items: seq<Loaded>) {
    && DistinctIds(items) && (forall x :: x in items ==> x.id !in d.rows && x.id !in d.sets)
    && forall x :: x in items && x.spec.owner.Some? ==> x.spec.owner.value in d.sets
  }

  lemma SavableNext(d: Disk, items: seq<Loaded>, i: nat)
    requires i < |items|
    ensures Savable(d, items) ==> Takes(Saved(d, items[..i]), items[i])
  {
    if Savable(d, items) {
      SavedIs(d, items[..i]);
      assert items[i] in items;
      assert forall y :: y in items[..i] ==> y.id != items[i].id;
    }
  }

  /** No row or map set of the batch is there already, and no two have the same id. */
  ghost predicate NewTo(d: Disk, items: seq<Loaded>) {
    DistinctIds(items) && forall x :: x in items ==> x.id !in d.rows && (x.spec.owner.None? ==> x.id !in d.sets)
  }

  /** The store's checks on one more row: a new id, with a new map set or one that is there. */
  predicate Takes(tx: Disk, x: Loaded) {
    x.id !in tx.rows && if x.spec.owner.Some? then x.spec.owner.value in tx.sets else x.id !in tx.sets
  }

  ghost predicate OwnersSaved(tx: Disk, items: seq<Loaded>) {
    forall x :: x in items && x.spec.owner.Some? ==> x.spec.owner.value in tx.sets
  }

  lemma NothingSavedYet(d: Disk)
    ensures Saved(d, []) == d && OwnersSaved(d, [])
  {}

  lemma NewNext(d: Disk, items: seq<Loaded>, i: nat)
    requires i < |items| && NewTo(d, items[..i]) && Takes(Saved(d, items[..i]), items[i])
    ensures NewTo(d, items[..i + 1])
  {
    hide Saved;
    SavedIs(d, items[..i]);
    assert items[..i + 1] == items[..i] + [items[i]];
    assert forall y :: y in items[..i] ==> y.id != items[i].id;
    assert forall k :: 0 <= k < i ==> items[..i][k] in items[..i];
  }

  lemma SavedNext(d: Disk, items: seq<Loaded>, i: nat)
    requires i < |items| && OwnersSaved(Saved(d, items[..i]), items[..i]) && Takes(Saved(d, items[..i]), items[i])
    ensures Saved(Saved(d, items[..i]), [items[i]]) == Saved(d, items[..i + 1])
    ensures OwnersSaved(Saved(d, items[..i + 1]), items[..i + 1])
  {
    assert items[..i + 1][..i] == items[..i];
  }

  /** Every owner named has its map directory. */
  ghost predicate OwnersPinned(d: Disk, specs: seq<Spec>) {
    forall spec :: spec in specs ==> OwnerPinned(d, spec)
  }

  ghost predicate OwnerPinned(d: Disk, spec: Spec) {
    spec.owner.Some? ==> spec.owner.value in d.dirs
  }

  lemma NoItems(d: Disk, specs: seq<Spec>)
    ensures Staged(d, []) == d && BatchOf(d, specs[..0], [])
  {}

  /** An id new to the staged disk is new to the disk before; and no staged program is the owner of another. */
  lemma NextUnknown(start: Disk, items: seq<Loaded>, id: Id, spec: Spec)
    requires Unknown(Staged(start, items), id) && forall x :: x in items ==> Unknown(start, x.id)
    ensures Unknown(start, id) && (Linked(start) ==> Linked(Staged(start, items)))
    ensures Coherent(start) ==> Coherent(Staged(start, items))
    ensures Staged(start, items).rows == start.rows && Staged(start, items).sets == start.sets
    ensures spec.owner.Some? && spec.owner.value in start.sets ==>
              (spec.owner.value in Staged(start, items).dirs <==> spec.owner.value in start.dirs)
  {
    StagedIs(start, items);
  }

  class Manager {
    var disk: Disk
    /** Which of the calls fail, by their number; and the ids the kernel hands out. */
    const faults: nat -> bool
    const ids: nat -> Id
    var calls: nat
    var next: nat
    /** No compensating or clean-up call has failed. */
    ghost var clean: bool

    constructor (disk: Disk, faults: nat -> bool, ids: nat -> Id)
      ensures this.disk == disk && this.faults == faults && this.ids == ids && calls == 0 && next == 0 && clean
    {
      this.disk, this.faults, this.ids, calls, next, clean := disk, faults, ids, 0, 0, true;
    }

    /** The kernel's coming ids are distinct and left no residue. */
    ghost predicate FreshIds()
      reads this
    {
      && (forall i, j :: next <= i < j ==> ids(i) != ids(j))
      && (forall i :: next <= i ==> Unknown(disk, ids(i)))
    }

    /** No call from now on fails. */
    ghost predicate Quiet()
      reads this
    {
      forall k :: calls <= k ==> !faults(k)
    }

    /** No call since the given one has failed. */
    ghost predicate NoneFailed(since: nat)
      reads this
    {
      forall k :: since <= k < calls ==> !faults(k)
    }

    /** A call on the main path. */
    method Call() returns (ok: bool)
      modifies `calls
      ensures ok == !faults(old(calls)) && calls == old(calls) + 1
    {
      ok := !faults(calls);
      calls := calls + 1;
    }

    /** A compensating or clean-up call. */
    method Try() returns (ok: bool)
      modifies `calls, `clean
      ensures clean == (old(clean) && ok) && ok == !faults(old(calls)) && calls == old(calls) + 1
    {
      ok := Call();
      clean := clean && ok;
    }

    /** After the program's row is gone: the map set, when nothing uses it any more. */
    method GcMapSetIfUnused(mapSet: Id)
      modifies this
      ensures next == old(next) && (clean ==> old(clean))
      ensures disk.rows == old(disk.rows) && disk.pins == old(disk.pins) && disk.bytecode == old(disk.bytecode)
      ensures InUse(disk, mapSet) ==> disk == old(disk)
      ensures old(disk.dirs) - {mapSet} <= disk.dirs <= old(disk.dirs)
      ensures old(disk.sets) - {mapSet} <= disk.sets <= old(disk.sets)
      ensures disk.dirs != old(disk.dirs) ==> !faults(old(calls)) && !faults(old(calls) + 1)
      ensures disk.sets != old(disk.sets) ==> mapSet !in disk.dirs && calls == old(calls) + 3 && NoneFailed(old(calls))
      ensures clean && !InUse(disk, mapSet) ==>
                disk == old(disk).(dirs := old(disk.dirs) - {mapSet}, sets := old(disk.sets) - {mapSet})
      ensures calls >= old(calls) && (old(Quiet()) && old(clean) ==> clean)
    {
      var ok := Try();
      if !ok || InUse(disk, mapSet) { return; }
      ok := Try();
      if !ok { return; }
      disk := disk.(dirs := disk.dirs - {mapSet});
      ok := Try();
      if ok { disk := disk.(sets := disk.sets - {mapSet}); }
    }

    /** Roll back map pins that no row ever named, unless a map set of that id survives. */
    method RemoveRolledBackMaps(id: Id)
      modifies this
      ensures next == old(next) && (clean ==> old(clean))
      ensures disk == old(disk) || (id !in old(disk.sets) && disk == old(disk).(dirs := old(disk.dirs) - {id}))
      ensures disk != old(disk) ==> calls == old(calls) + 2 && NoneFailed(old(calls))
      ensures old(Linked(disk)) ==> Linked(disk) && (old(Coherent(disk)) ==> Coherent(disk))
      ensures old(Linked(disk)) ==> forall s :: s in old(disk.dirs) && s !in disk.dirs ==> Unused(disk, s)
      ensures clean && id !in old(disk.sets) ==> disk == old(disk).(dirs := old(disk.dirs) - {id})
      ensures calls >= old(calls) && (old(Quiet()) && old(clean) ==> clean)
    {
      var ok := Try();
      if !ok || id in disk.sets { return; }
      ok := Try();
      if ok { disk := disk.(dirs := disk.dirs - {id}); }
    }

    /** The program's row, then its map set. */
    method RemoveRow(id: Id, spec: Spec) returns (ok: bool)
      requires Linked(disk) && id in disk.rows && disk.rows[id] == spec
      modifies this
      ensures next == old(next) && (clean ==> old(clean)) && calls > old(calls)
      ensures Linked(disk) && (old(Coherent(disk)) ==> Coherent(disk))
      ensures ok == !faults(old(calls)) && (!ok ==> disk == old(disk) && !clean)
      ensures disk.pins == old(disk.pins) && disk.bytecode == old(disk.bytecode)
      ensures ok ==> disk.rows == old(disk.rows) - {id}
      ensures forall s :: s in old(disk.dirs) && s !in disk.dirs ==> Unused(disk, s)
      ensures clean ==> disk == RowGone(old(disk), id, SetOf(id, spec))
      ensures old(Quiet()) && old(clean) ==> clean
    {
      ok := Try();
      if ok {
        disk := disk.(rows := disk.rows - {id});
        GcMapSetIfUnused(SetOf(id, spec));
      }
    }

    /** unload: detach, drop the pin, then the rows, maps and bytecode; any step may fail. */
    method UnloadProgram(id: Id, spec: Spec, persisted: bool) returns (ok: bool)
      requires Linked(disk) && (persisted ==> id in disk.rows && disk.rows[id] == spec)
      modifies this
      ensures next == old(next) && (clean ==> old(clean))
      ensures Linked(disk) && (old(Coherent(disk)) ==> Coherent(disk))
      ensures disk.rows == old(disk.rows) || (persisted && disk.rows == old(disk.rows) - {id})
      ensures persisted && ok ==> id !in disk.rows && id !in disk.pins
      ensures !persisted ==> disk.rows == old(disk.rows) && disk.sets == old(disk.sets)
      ensures forall s :: s in old(disk.dirs) && s !in disk.dirs ==> Unused(disk, s)
      ensures clean ==> ok && disk == Unloaded(old(disk), id, spec, persisted)
      ensures ok <==> !faults(old(calls)) && !faults(old(calls) + 1) && (persisted ==> !faults(old(calls) + 2))
      ensures faults(old(calls)) || faults(old(calls) + 1) ==> disk == old(disk)
      ensures !ok ==> disk.rows == old(disk.rows) && disk.sets == old(disk.sets) && (persisted ==> disk.dirs == old(disk.dirs))
      ensures disk.bytecode == old(disk.bytecode) || (calls > old(calls) && !faults(calls - 1))
      ensures calls >= old(calls) && (old(Quiet()) && old(clean) ==> clean)
    {
      hide Linked, Coherent, Unused, RowGone;
      ok := Try();
      if !ok { return; }
      ok := Try();
      if !ok { return; }
      FilesApart(disk, disk.pins - {id}, disk.bytecode);
      disk := disk.(pins := disk.pins - {id});
      if persisted {
        ok := RemoveRow(id, spec);
      } else if SetOf(id, spec) == id {
        RemoveRolledBackMaps(id);
      }
      FilesApart(disk, disk.pins, disk.bytecode - {id});
      FilesApart(old(disk), old(disk.pins) - {id}, old(disk.bytecode) - {id});
      var removed := Try();
      if removed { disk := disk.(bytecode := disk.bytecode - {id}); }
    }

    /** Manager.Unload: the program is read, then its links, then it is unloaded. */
    method Unload(id: Id) returns (ok: bool)
      requires Linked(disk)
      modifies this
      ensures clean ==> old(clean)
      ensures old(Quiet()) && old(clean) && id in old(disk.rows) ==> clean
      ensures Linked(disk) && (old(Coherent(disk)) ==> Coherent(disk)) && next == old(next)
      ensures id !in old(disk.rows) ==> !ok && disk == old(disk)
      ensures ok <==> id in old(disk.rows) && forall k :: old(calls) <= k < old(calls) + 5 ==> !faults(k)
      ensures disk.rows == if ok then old(disk.rows) - {id} else old(disk.rows)
      ensures disk != old(disk) ==> forall k :: old(calls) <= k < old(calls) + 4 ==> !faults(k)
      ensures forall s :: s in old(disk.dirs) && s !in disk.dirs ==> Unused(disk, s)
      ensures id in old(disk.rows) && clean ==> ok && disk == Unloaded(old(disk), id, old(disk.rows)[id], true)
    {
      ok := Try();
      if !ok || id !in disk.rows { return false; }
      ok := Try();
      if !ok { return; }
      ok := UnloadProgram(id, disk.rows[id], true);
    }

    /** The load plan's undo, step by step. */
    method UndoPlan(id: Id, spec: Spec)
      modifies this
      ensures next == old(next) && calls == old(calls) + 2
      ensures clean <==> old(clean) && !faults(old(calls)) && !faults(old(calls) + 1)
      ensures var undone := PlanUndone(old(disk), id, spec);
              disk == old(disk).(pins := if faults(old(calls)) then old(disk.pins) else undone.pins,
                                 dirs := if faults(old(calls) + 1) then old(disk.dirs) else undone.dirs)
    {
      var ok := Try();
      if ok { disk := disk.(pins := disk.pins - {id}); }
      ok := Try();
      if ok { disk := disk.(dirs := disk.dirs - {SetOf(id, spec)}); }
    }

    /** One program's load plan: kernel load, then bytecode publication, undone in reverse. `undone` says that
        the plan failed after the kernel load. */
    method LoadOne(spec: Spec) returns (out: Option<Id>, ghost undone: bool)
      requires FreshIds()
      modifies this
      ensures next == old(next) + 1 && (clean ==> old(clean))
      ensures out.Some? ==> out.value == ids(old(next)) && disk == Staged(old(disk), [Loaded(out.value, spec)])
      ensures out.Some? ==> FreshIds() && (spec.owner.Some? ==> spec.owner.value in old(disk.dirs))
      ensures out.None? ==> disk.rows == old(disk.rows) && disk.sets == old(disk.sets)
      ensures out.None? && spec.owner.None? ==> old(disk.dirs) <= disk.dirs
      ensures out.None? && clean && !undone ==> disk == old(disk)
      ensures out.None? && clean && undone ==>
                disk == PlanUndone(KernelLoaded(old(disk), ids(old(next)), spec), ids(old(next)), spec)
      ensures calls >= old(calls) && (undone ==> out.None?)
      ensures out.Some? || undone <==> !faults(old(calls)) && (spec.owner.Some? ==> spec.owner.value in old(disk.dirs))
      ensures out.Some? ==> calls == old(calls) + 2 && NoneFailed(old(calls))
      ensures undone && faults(old(calls) + 2) ==> ids(old(next)) in disk.pins
      ensures undone && faults(old(calls) + 3) ==> disk.dirs == KernelLoaded(old(disk), ids(old(next)), spec).dirs
      ensures old(Quiet()) ==> (out.Some? <==> (spec.owner.Some? ==> spec.owner.value in old(disk.dirs)))
    {
      hide Staged, PlanUndone;
      var id := ids(next);
      assert Unknown(disk, id);
      next := next + 1;
      var ok := Call();
      if !ok || (spec.owner.Some? && spec.owner.value !in disk.dirs) { return None, false; }
      disk := KernelLoaded(disk, id, spec);
      ok := Call();
      if ok {
        disk := disk.(bytecode := disk.bytecode + {id});
        StagedOne(old(disk), id, spec);
        return Some(id), false;
      }
      UndoPlan(id, spec);
      UndoIs(KernelLoaded(old(disk), id, spec), id, spec);
      return None, true;
    }

    /** One row, and the map set of a program that owns its maps. */
    method SaveOne(tx: Disk, x: Loaded) returns (saved: Option<Disk>)
      modifies `calls
      ensures saved.Some? <==> !faults(old(calls)) && !faults(old(calls) + 1) && Takes(tx, x)
      ensures saved.Some? ==> saved.value == Saved(tx, [x]) && calls == old(calls) + 2
      ensures calls >= old(calls)
    {
      assert [x][..0] == [];
      var ok := Call();
      if !ok || x.id in tx.rows { return None; }
      ok := Call();
      if !ok { return None; }
      var sets := tx.sets;
      if x.spec.owner.Some? {
        if x.spec.owner.value !in tx.sets { return None; }
      } else if x.id in tx.sets {
        return None;
      } else {
        sets := sets + {x.id};
      }
      return Some(tx.(rows := tx.rows[x.id := x.spec], sets := sets));
    }

    /** Phase B: one transaction, so that a failure part of the way leaves the store as it was. */
    method Commit(items: seq<Loaded>) returns (ok: bool)
      modifies this
      ensures next == old(next) && clean == old(clean)
      ensures ok ==> disk == Saved(old(disk), items) && NewTo(old(disk), items) && OwnersSaved(disk, items)
      ensures !ok ==> disk == old(disk)
      ensures ok ==> calls == old(calls) + 2 * |items| + 2 && NoneFailed(old(calls))
      ensures calls >= old(calls) && (old(Quiet()) && Savable(old(disk), items) ==> ok)
    {
      hide Saved, Savable, Takes, OwnersSaved;
      var tx := disk;
      assert items[..0] == [] && Saved(disk, []) == disk && OwnersSaved(disk, []) by {
        NothingSavedYet(disk);
      }
      for i := 0 to |items|
        invariant disk == old(disk) && next == old(next) && clean == old(clean)
        invariant tx == Saved(disk, items[..i]) && NewTo(disk, items[..i]) && OwnersSaved(tx, items[..i])
        invariant calls == old(calls) + 2 * i && NoneFailed(old(calls))
      {
        SavableNext(disk, items, i);
        var saved := SaveOne(tx, items[i]);
        if saved.None? { return false; }
        NewNext(disk, items, i);
        SavedNext(disk, items, i);
        tx := saved.value;
      }
      assert items[..|items|] == items;
      // The list of programs for the reply, and the transaction's own commit.
      ok := Call();
      if !ok { return; }
      ok := Call();
      if ok { disk := tx; }
    }

    /** cleanupLoaded: unload what phase A staged, last first. */
    method RollBack(items: seq<Loaded>, ghost start: Disk)
      requires Linked(disk) && DistinctIds(items) && forall x :: x in items ==> Unknown(start, x.id)
      modifies this
      ensures next == old(next) && (clean ==> old(clean))
      ensures Linked(disk) && (old(Coherent(disk)) ==> Coherent(disk))
      ensures disk.rows == old(disk.rows) && disk.sets == old(disk.sets)
      ensures clean && old(disk) == Staged(start, items) ==> disk == start
      ensures calls >= old(calls)
    {
      var j := |items|;
      assert items[..j] == items;
      while j > 0
        invariant 0 <= j <= |items| && next == old(next) && (clean ==> old(clean)) && calls >= old(calls)
        invariant Linked(disk) && (old(Coherent(disk)) ==> Coherent(disk))
        invariant disk.rows == old(disk.rows) && disk.sets == old(disk.sets)
        invariant clean && old(disk) == Staged(start, items) ==> disk == Staged(start, items[..j])
      {
        j := j - 1;
        assert items[..j + 1][..j] == items[..j];
        UnstageLast(start, items[..j + 1]);
        var _ := UnloadProgram(items[j].id, items[j].spec, false);
      }
      assert items[..0] == [];
    }

    /** The next id is new to the batch as well. */
    ghost predicate Ahead(items: seq<Loaded>)
      reads this
    {
      forall x, k :: x in items && next <= k ==> ids(k) != x.id
    }

    /** One round of phase A: load the next program, or roll back those before it. */
    method LoadNext(specs: seq<Spec>, items: seq<Loaded>, ghost start: Disk) returns (one: Option<Id>)
      requires |items| < |specs| && OwnersKnown(start, specs) && Linked(start)
      requires disk == Staged(start, items) && FreshIds() && Ahead(items)
      requires BatchOf(start, specs[..|items|], items)
      modifies this
      ensures (clean ==> old(clean)) && calls >= old(calls)
      ensures one.Some? ==>
                var more := items + [Loaded(one.value, specs[|items|])];
                disk == Staged(start, more) && FreshIds() && Ahead(more) && BatchOf(start, specs[..|items| + 1], more)
      ensures one.None? ==> NothingSaved(start, disk, specs) && (clean ==> Restored(start, disk, specs))
      ensures one.Some? ==> OwnerPinned(start, specs[|items|]) && NoneFailed(old(calls))
      ensures old(Quiet()) && OwnerPinned(start, specs[|items|]) ==> one.Some?
    {
      ghost var id, spec := ids(next), specs[|items|];
      NextUnknown(start, items, id, spec);
      ghost var undone;
      one, undone := LoadOne(specs[|items|]);
      if one.None? {
        FailedPlan(start, items, id, spec);
        RollBack(items, if undone then start.(dirs := start.dirs - {SetOf(id, spec)}) else start);
        assert spec in specs;
        return;
      }
      BatchGrows(start, specs[..|items|], items, id, spec);
      assert specs[..|items| + 1] == specs[..|items|] + [spec];
    }

    /** Phase A: load each program; on a failure roll back those before it. */
    method LoadAll(specs: seq<Spec>) returns (out: Option<seq<Loaded>>)
      requires Linked(disk) && FreshIds() && OwnersKnown(disk, specs)
      modifies this
      ensures (clean ==> old(clean)) && calls >= old(calls)
      ensures out.Some? ==> BatchOf(old(disk), specs, out.value) && disk == Staged(old(disk), out.value)
      ensures out.Some? ==> NoneFailed(old(calls))
      ensures out.None? ==> NothingSaved(old(disk), disk, specs) && (clean ==> Restored(old(disk), disk, specs))
      ensures old(Quiet()) ==> (out.Some? <==> OwnersPinned(old(disk), specs))
    {
      hide Staged, Linked, BatchOf, NothingSaved, Restored, OwnersKnown;
      ghost var start := disk;
      var items: seq<Loaded> := [];
      NoItems(start, specs);
      for i := 0 to |specs|
        invariant |items| == i && disk == Staged(start, items) && FreshIds() && Ahead(items)
        invariant BatchOf(start, specs[..i], items) && (clean ==> old(clean))
        invariant calls >= old(calls) && OwnersPinned(start, specs[..i]) && NoneFailed(old(calls))
      {
        var one := LoadNext(specs, items, start);
        assert specs[i] in specs;
        if one.None? {
          return None;
        }
        assert specs[..i + 1] == specs[..i] + [specs[i]];
        items := items + [Loaded(one.value, specs[i])];
      }
      assert specs[..|specs|] == specs;
      out := Some(items);
    }

    /** loadBody: all of the batch, in the order of its specs, or nothing of it; and nothing at all remains when
        the clean-up calls succeed - except that a failed publish of a program that shares maps takes its owner's
        map directory along. */
    method LoadBody(specs: seq<Spec>) returns (out: Option<seq<Loaded>>)
      requires Linked(disk) && FreshIds() && OwnersKnown(disk, specs)
      modifies this
      ensures out.Some? ==> BatchOf(old(disk), specs, out.value) && disk == Saved(Staged(old(disk), out.value), out.value)
      ensures out.Some? ==> NoneFailed(old(calls))
      ensures out.Some? ==> Linked(disk) && (old(Coherent(disk)) ==> Coherent(disk))
      ensures out.None? ==> NothingSaved(old(disk), disk, specs) && (clean ==> Restored(old(disk), disk, specs))
      ensures out.None? && clean && SelfOwned(specs) ==> disk == old(disk)
      ensures old(Quiet()) ==> (out.Some? <==> OwnersPinned(old(disk), specs))
    {
      ghost var start := disk;
      out := LoadAll(specs);
      if out.None? { return; }
      var items := out.value;
      StagedIs(start, items);
      var ok := Commit(items);
      if !ok {
        RollBack(items, start);
        return None;
      }
      SavedLinked(start, items);
    }

    /** Load: every owner named must have a map set, then loadBody. */
    method Load(specs: seq<Spec>) returns (out: Option<seq<Loaded>>)
      requires Linked(disk) && FreshIds()
      modifies this
      ensures out.Some? ==> OwnersKnown(old(disk), specs) && BatchOf(old(disk), specs, out.value)
      ensures out.Some? ==> disk == Saved(Staged(old(disk), out.value), out.value) && NoneFailed(old(calls))
      ensures Linked(disk) && (old(Coherent(disk)) && (out.Some? || SelfOwned(specs)) ==> Coherent(disk))
      ensures out.None? ==> NothingSaved(old(disk), disk, specs) && (clean ==> Restored(old(disk), disk, specs))
      ensures !OwnersKnown(old(disk), specs) ==> out.None? && disk == old(disk)
      ensures old(Quiet()) ==> (out.Some? <==> OwnersKnown(old(disk), specs) && OwnersPinned(old(disk), specs))
    {
      for i := 0 to |specs|
        invariant disk == old(disk) && next == old(next) && clean == old(clean) && calls >= old(calls)
        invariant OwnersKnown(disk, specs[..i]) && NoneFailed(old(calls))
      {
        assert specs[..i + 1] == specs[..i] + [specs[i]];
        if specs[i].owner.Some? {
          var ok := Call();
          if !ok || specs[i].owner.value !in disk.sets { return None; }
        }
      }
      assert specs[..|specs|] == specs;
      out := LoadBody(specs);
    }
  }
}
