/** Program deletion: the order of a batch, and the recursive deletion of map-owner dependents. */
module Delete {
  import opened Reap

  /** dependentsByOwner. */
  type Graph = map<Id, seq<Id>>

  function Deps(graph: Graph, id: Id): seq<Id> {
    if id in graph then graph[id] else []
  }

  /** From each entry to a dependent of it. */
  ghost predicate Descends(path: seq<Id>, graph: Graph) {
    forall i :: 0 <= i < |path| - 1 ==> path[i + 1] in Deps(graph, path[i])
  }

  /** A way through the selection from a program back to itself. */
  ghost predicate Cycle(path: seq<Id>, graph: Graph, selected: set<Id>) {
    |path| > 1 && path[0] == path[|path| - 1] && Descends(path, graph) && forall i :: 0 <= i < |path| ==> path[i] in selected
  }

  /** No selected program depends, directly or not, on itself. */
  ghost predicate Acyclic(graph: Graph, selected: set<Id>) {
    forall path :: !Cycle(path, graph, selected)
  }

  /** rank falls from every selected owner to its selected dependents. */
  ghost predicate Ranked(rank: Id -> nat, graph: Graph, selected: set<Id>) {
    forall o, d :: o in selected && d in selected && d in Deps(graph, o) ==> rank(d) < rank(o)
  }

  lemma {:induction false} RankFalls(path: seq<Id>, graph: Graph, selected: set<Id>, rank: Id -> nat, k: nat)
    requires Ranked(rank, graph, selected) && Descends(path, graph) && k < |path|
    requires forall i :: 0 <= i < |path| ==> path[i] in selected
    ensures rank(path[k]) + k <= rank(path[0])
  {
    if k > 0 {
      RankFalls(path, graph, selected, rank, k - 1);
      assert path[k - 1 + 1] in Deps(graph, path[k - 1]);
    }
  }

  lemma RankedAcyclic(graph: Graph, selected: set<Id>, rank: Id -> nat)
    requires Ranked(rank, graph, selected)
    ensures Acyclic(graph, selected)
  {
    forall path ensures !Cycle(path, graph, selected) {
      if Cycle(path, graph, selected) {
        RankFalls(path, graph, selected, rank, |path| - 1);
      }
    }
  }

  ghost predicate HasDependent(graph: Graph, selected: set<Id>, x: Id) {
    exists d :: d in selected && d in Deps(graph, x)
  }

  ghost predicate NoneLast(graph: Graph, selected: set<Id>) {
    forall x :: x in selected ==> HasDependent(graph, selected, x)
  }

  lemma Onward(graph: Graph, selected: set<Id>, x: Id) returns (d: Id)
    requires NoneLast(graph, selected) && x in selected
    ensures d in selected && d in Deps(graph, x)
  {
    assert HasDependent(graph, selected, x);
    d :| d in selected && d in Deps(graph, x);
  }

  /** Where every selected program has a selected dependent, one can walk on for ever. */
  lemma {:induction false} Walk(graph: Graph, selected: set<Id>, start: Id, n: nat) returns (path: seq<Id>)
    requires start in selected && NoneLast(graph, selected)
    ensures |path| == n + 1 && Descends(path, graph) && forall i :: 0 <= i < |path| ==> path[i] in selected
  {
    hide NoneLast, Deps;
    if n == 0 {
      path := [start];
    } else {
      var init := Walk(graph, selected, start, n - 1);
      var d := Onward(graph, selected, init[n - 1]);
      path := init + [d];
    }
  }

  lemma {:induction false} SubsetSize(a: set<Id>, b: set<Id>)
    requires a <= b
    ensures |a| <= |b|
  {
    if a != {} {
      var x :| x in a;
      SubsetSize(a - {x}, b - {x});
    }
  }

  lemma {:induction false} DistinctSize(s: seq<Id>)
    requires NoRepeats(s)
    ensures |Elements(s)| == |s|
  {
    if s != [] {
      var init, last := s[..|s| - 1], s[|s| - 1];
      DistinctSize(init);
      assert s == init + [last];
      assert Elements(s) == Elements(init) + {last} && last !in Elements(init);
    }
  }

  /** A walk longer than the selection comes back to where it was. */
  lemma Repeats(s: seq<Id>, selected: set<Id>)
    requires |s| > |selected| && forall i :: 0 <= i < |s| ==> s[i] in selected
    ensures !NoRepeats(s)
  {
    SubsetSize(Elements(s), selected);
    if NoRepeats(s) {
      DistinctSize(s);
    }
  }

  lemma WalkCycles(graph: Graph, selected: set<Id>)
    requires selected != {} && NoneLast(graph, selected)
    ensures exists path :: Cycle(path, graph, selected)
  {
    hide NoneLast, Deps;
    var start :| start in selected;
    var walk := Walk(graph, selected, start, |selected|);
    Repeats(walk, selected);
    var i, j :| 0 <= i < j < |walk| && walk[i] == walk[j];
    SliceCycles(walk, graph, selected, i, j);
  }

  lemma SliceCycles(walk: seq<Id>, graph: Graph, selected: set<Id>, i: nat, j: nat)
    requires i < j < |walk| && walk[i] == walk[j] && Descends(walk, graph)
    requires forall k :: 0 <= k < |walk| ==> walk[k] in selected
    ensures Cycle(walk[i..j + 1], graph, selected)
  {
    hide Deps;
    var path := walk[i..j + 1];
    forall k | 0 <= k < |path| - 1 ensures path[k + 1] in Deps(graph, path[k]) {
      assert walk[i + k + 1] in Deps(graph, walk[i + k]);
    }
  }

  lemma {:induction false} AcyclicRanked(graph: Graph, selected: set<Id>) returns (rank: Id -> nat)
    requires Acyclic(graph, selected)
    ensures Ranked(rank, graph, selected)
    decreases |selected|
  {
    if selected == {} {
      rank := _ => 0;
    } else {
      if NoneLast(graph, selected) {
        WalkCycles(graph, selected);
      }
      var last :| last in selected && !HasDependent(graph, selected, last);
      forall path ensures !Cycle(path, graph, selected - {last}) {
        assert !Cycle(path, graph, selected);
      }
      var rest := AcyclicRanked(graph, selected - {last});
      rank := x => if x == last then 0 else rest(x) + 1;
    }
  }

  /** A rank exists exactly when there is no cycle. */
  lemma AcyclicIsRanked(graph: Graph, selected: set<Id>)
    ensures Acyclic(graph, selected) <==> exists rank: Id -> nat :: Ranked(rank, graph, selected)
  {
    if Acyclic(graph, selected) {
      var rank := AcyclicRanked(graph, selected);
    }
    if rank: Id -> nat :| Ranked(rank, graph, selected) {
      RankedAcyclic(graph, selected, rank);
    }
  }

  /** Every selected dependent of an entry comes before it. */
  ghost predicate OwnersLast(order: seq<Id>, graph: Graph, selected: set<Id>) {
    forall i, d :: 0 <= i < |order| && d in selected && d in Deps(graph, order[i]) ==> d in order[..i]
  }

  /** The variables that orderProgramDeletes' closure visit updates. */
  class Ordering {
    const graph: Graph
    const selected: set<Id>
    var seen: set<Id>
    var ordered: seq<Id>

    constructor (graph: Graph, selected: set<Id>)
      ensures this.graph == graph && this.selected == selected && seen == {} && ordered == []
    {
      this.graph, this.selected, seen, ordered := graph, selected, {}, [];
    }

    ghost predicate Valid()
      reads this
    {
      Elements(ordered) <= seen <= selected && NoRepeats(ordered)
    }

    /** The entries whose visit has begun and not ended. */
    ghost function Open(): set<Id>
      reads this
    {
      seen - Elements(ordered)
    }

    /** With a rank, every visit under way has a higher one than id, so id's dependents are done when id is. */
    method Visit(id: Id, ghost ranked: bool, ghost rank: Id -> nat)
      requires Valid() && id in selected
      requires ranked ==> Ranked(rank, graph, selected) && OwnersLast(ordered, graph, selected)
      requires ranked ==> forall g :: g in Open() ==> rank(id) < rank(g)
      modifies this
      ensures Valid() && old(seen) <= seen && old(ordered) <= ordered && id in seen
      ensures Open() == old(Open())
      ensures ranked ==> OwnersLast(ordered, graph, selected)
      decreases selected - seen
    {
      if id in seen {
        return;
      }
      seen := seen + {id};
      ghost var open := Open();
      assert open == old(Open()) + {id};
      var deps := Deps(graph, id);
      for k := 0 to |deps|
        invariant Valid() && old(seen) + {id} <= seen && old(ordered) <= ordered && Open() == open
        invariant ranked ==> OwnersLast(ordered, graph, selected)
        invariant forall j :: 0 <= j < k && deps[j] in selected ==> deps[j] in seen
      {
        if deps[k] in selected {
          Visit(deps[k], ranked, rank);
        }
      }
      if ranked {
        forall d | d in selected && d in deps ensures d in ordered {
          assert d in seen && rank(d) < rank(id);
          assert d !in Open();
          assert d in Elements(ordered);
        }
      }
      assert id in Open() && id !in ordered by {
        assert id !in Elements(ordered);
      }
      AppendLast(ordered, graph, selected, id, ranked);
      ordered := ordered + [id];
      assert Open() == old(Open());
    }
  }

  lemma AppendLast(ordered: seq<Id>, graph: Graph, selected: set<Id>, id: Id, ranked: bool)
    requires NoRepeats(ordered) && id !in ordered
    requires ranked ==> OwnersLast(ordered, graph, selected) && forall d :: d in selected && d in Deps(graph, id) ==> d in ordered
    ensures NoRepeats(ordered + [id]) && Elements(ordered + [id]) == Elements(ordered) + {id}
    ensures ranked ==> OwnersLast(ordered + [id], graph, selected)
  {
    var next := ordered + [id];
    if ranked {
      forall i, d | 0 <= i < |next| && d in selected && d in Deps(graph, next[i]) ensures d in next[..i] {
        assert next[..i] == ordered[..i];
        assert ordered[..|ordered|] == ordered;
      }
    }
  }

  /** Terminates on every graph. Several ids over a graph with edges come out once each, and with every
      selected dependent before its owner exactly when the selection has no cycle. */
  method OrderProgramDeletes(ids: seq<Id>, graph: Graph) returns (order: seq<Id>)
    ensures |ids| <= 1 || graph == map[] ==> order == ids
    ensures |ids| > 1 && graph != map[] ==> NoRepeats(order) && Elements(order) == Elements(ids)
    ensures |ids| > 1 && graph != map[] ==> (OwnersLast(order, graph, Elements(ids)) <==> Acyclic(graph, Elements(ids)))
  {
    hide Acyclic, Ranked, Deps, OwnersLast;
    if |ids| <= 1 || |graph| == 0 {
      return ids;
    }
    EmptyOwnersLast(graph, set x | x in ids);
    var selected := set x | x in ids;
    ghost var ranked := Acyclic(graph, selected);
    ghost var rank: Id -> nat := _ => 0;
    if ranked {
      rank := AcyclicRanked(graph, selected);
    }
    var o := new Ordering(graph, selected);
    for i := 0 to |ids|
      invariant fresh(o) && o.graph == graph && o.selected == selected
      invariant o.Valid() && o.Open() == {} && Elements(ids[..i]) <= o.seen
      invariant ranked ==> OwnersLast(o.ordered, graph, selected)
    {
      o.Visit(ids[i], ranked, rank);
      assert ids[..i + 1] == ids[..i] + [ids[i]];
    }
    order := o.ordered;
    assert ids[..|ids|] == ids;
    assert Elements(order) == o.seen by {
      assert forall x :: x in o.seen ==> x in Elements(order) || x in o.Open();
    }
    if OwnersLast(order, graph, selected) {
      OrderRanks(order, graph, selected);
    }
  }

  lemma EmptyOwnersLast(graph: Graph, selected: set<Id>)
    ensures OwnersLast([], graph, selected)
  {}

  /** An order with owners last ranks every entry by its place. */
  lemma OrderRanks(order: seq<Id>, graph: Graph, selected: set<Id>)
    requires OwnersLast(order, graph, selected) && NoRepeats(order) && Elements(order) == selected
    ensures Acyclic(graph, selected)
  {
    var rank: Id -> nat := x => Place(order, x);
    forall o, d | o in selected && d in selected && d in Deps(graph, o) ensures rank(d) < rank(o) {
      assert o in Elements(order);
      var i :| 0 <= i < |order| && order[i] == o;
      PlaceOf(order, i);
      assert d in order[..i];
      var j :| 0 <= j < i && order[j] == d;
      PlaceOf(order, j);
    }
    RankedAcyclic(graph, selected, rank);
  }

  function Place(order: seq<Id>, x: Id): nat {
    if order == [] then 0
    else if order[|order| - 1] == x then |order| - 1
    else Place(order[..|order| - 1], x)
  }

  lemma {:induction false} PlaceOf(order: seq<Id>, i: nat)
    requires NoRepeats(order) && i < |order|
    ensures Place(order, order[i]) == i
  {
    if i < |order| - 1 {
      PlaceOf(order[..|order| - 1], i);
    }
  }

  // Recursive deletion.

  /** to is from, a dependent of from, a dependent of a dependent, and so on. */
  ghost predicate Reaches(graph: Graph, from: Id, to: Id) {
    exists path: seq<Id> :: DependencyPath(path, graph, from, to)
  }

  ghost predicate DependencyPath(path: seq<Id>, graph: Graph, from: Id, to: Id) {
    |path| > 0 && path[0] == from && path[|path| - 1] == to && Descends(path, graph)
  }

  lemma ReachSelf(graph: Graph, id: Id)
    ensures Reaches(graph, id, id)
  {
    assert DependencyPath([id], graph, id, id);
  }

  lemma ReachStep(graph: Graph, id: Id, d: Id, to: Id)
    requires d in Deps(graph, id) && Reaches(graph, d, to)
    ensures Reaches(graph, id, to)
  {
    var path :| DependencyPath(path, graph, d, to);
    var long := [id] + path;
    forall i | 0 <= i < |long| - 1 ensures long[i + 1] in Deps(graph, long[i]) {
      assert i > 0 ==> path[i - 1 + 1] in Deps(graph, path[i - 1]);
    }
    assert DependencyPath(long, graph, id, to);
  }

  /** Everything that ids reach. */
  ghost predicate WithinReach(graph: Graph, id: Id, ids: set<Id>) {
    forall x :: x in ids ==> Reaches(graph, id, x)
  }

  /** A set that holds the dependents of its members holds whatever they reach. */
  ghost predicate HoldsDependents(graph: Graph, ids: set<Id>) {
    forall x, d :: x in ids && d in Deps(graph, x) ==> d in ids
  }

  lemma {:induction false} HeldPath(graph: Graph, ids: set<Id>, path: seq<Id>, from: Id, to: Id)
    requires HoldsDependents(graph, ids) && from in ids && DependencyPath(path, graph, from, to)
    ensures to in ids
    decreases |path|
  {
    if |path| > 1 {
      assert path[0 + 1] in Deps(graph, path[0]);
      var rest := path[1..];
      forall i | 0 <= i < |rest| - 1 ensures rest[i + 1] in Deps(graph, rest[i]) {
        assert path[i + 1 + 1] in Deps(graph, path[i + 1]);
      }
      HeldPath(graph, ids, rest, path[1], to);
    }
  }

  lemma HeldReach(graph: Graph, ids: set<Id>, id: Id)
    requires HoldsDependents(graph, ids) && id in ids
    ensures forall x :: Reaches(graph, id, x) ==> x in ids
  {
    forall x | Reaches(graph, id, x) ensures x in ids {
      var path :| DependencyPath(path, graph, id, x);
      HeldPath(graph, ids, path, id, x);
    }
  }

  /** Every program that the graph mentions. */
  ghost function Nodes(graph: Graph): (all: set<Id>)
    ensures HoldsDependents(graph, all)
    ensures forall x, d :: d in Deps(graph, x) ==> x in all && d in all
  {
    graph.Keys + set o, d | o in graph && d in graph[o] :: d
  }

  /** No program depends, directly or not, on itself. */
  ghost predicate NoCycle(graph: Graph) {
    Acyclic(graph, Nodes(graph))
  }

  ghost function Rank(graph: Graph): (rank: Id -> nat)
    requires NoCycle(graph)
    ensures Ranked(rank, graph, Nodes(graph))
  {
    AcyclicIsRanked(graph, Nodes(graph));
    var rank: Id -> nat :| Ranked(rank, graph, Nodes(graph));
    rank
  }

  /** Each unloaded program was unloaded once and after all its dependents. */
  ghost predicate UnloadOrder(graph: Graph, unloaded: seq<Id>) {
    && NoRepeats(unloaded)
    && forall i, d :: 0 <= i < |unloaded| && d in Deps(graph, unloaded[i]) ==> d in unloaded[..i]
  }

  type Links = map<Id, seq<nat>>

  function LinksIn(links: Links, id: Id): seq<nat> {
    if id in links then links[id] else []
  }

  /** The links of a program that are gone: the first ones. */
  ghost function GoneOf(initial: Links, links: Links, id: Id): seq<nat> {
    var before, now := LinksIn(initial, id), LinksIn(links, id);
    if |now| <= |before| then before[..|before| - |now|] else []
  }

  /** Every program has lost a front part of its links, and `removed` holds exactly the links lost. */
  ghost predicate Accounted(initial: Links, links: Links, removed: set<nat>) {
    && (forall x :: LinksIn(initial, x) == GoneOf(initial, links, x) + LinksIn(links, x))
    && (forall l :: l in removed <==> IsGone(initial, links, l))
  }

  /** Every other program's links are as they were. */
  ghost predicate SparesBut(before: Links, after: Links, id: Id) {
    forall x :: x != id ==> LinksIn(after, x) == LinksIn(before, x)
  }

  /** The links of every program that id does not reach are as they were. */
  ghost predicate SparesOutside(graph: Graph, before: Links, after: Links, id: Id) {
    forall x :: !Reaches(graph, id, x) ==> LinksIn(after, x) == LinksIn(before, x)
  }

  lemma SparesSelf(graph: Graph, before: Links, middle: Links, after: Links, id: Id)
    requires SparesOutside(graph, before, middle, id) && SparesBut(middle, after, id)
    ensures SparesOutside(graph, before, after, id)
  {
    ReachSelf(graph, id);
  }

  lemma SparesDependent(graph: Graph, before: Links, middle: Links, after: Links, owner: Id, d: Id)
    requires SparesOutside(graph, before, middle, owner) && SparesOutside(graph, middle, after, d) && d in Deps(graph, owner)
    ensures SparesOutside(graph, before, after, owner)
  {
    hide Reaches;
    forall x | !Reaches(graph, owner, x) ensures !Reaches(graph, d, x) {
      if Reaches(graph, d, x) { ReachStep(graph, owner, d, x); }
    }
  }

  lemma GoneNext(initial: Links, links: Links, id: Id, x: Id)
    requires LinksIn(links, id) != [] && LinksIn(initial, id) == GoneOf(initial, links, id) + LinksIn(links, id)
    ensures var todo := LinksIn(links, id);
            GoneOf(initial, links[id := todo[1..]], x) ==
            if x == id then GoneOf(initial, links, id) + [todo[0]] else GoneOf(initial, links, x)
  {}

  lemma StillSplit(initial: Links, links: Links, id: Id, x: Id)
    requires LinksIn(links, id) != [] && LinksIn(initial, id) == GoneOf(initial, links, id) + LinksIn(links, id)
    requires LinksIn(initial, x) == GoneOf(initial, links, x) + LinksIn(links, x)
    ensures var next := links[id := LinksIn(links, id)[1..]];
            LinksIn(initial, x) == GoneOf(initial, next, x) + LinksIn(next, x)
  {
    hide GoneOf;
    var todo := LinksIn(links, id);
    GoneNext(initial, links, id, x);
    assert GoneOf(initial, links, id) + todo == GoneOf(initial, links, id) + [todo[0]] + todo[1..];
  }

  ghost predicate IsGone(initial: Links, links: Links, l: nat) {
    exists x :: l in GoneOf(initial, links, x)
  }

  lemma IsGoneNext(initial: Links, links: Links, id: Id, l: nat)
    requires LinksIn(links, id) != [] && LinksIn(initial, id) == GoneOf(initial, links, id) + LinksIn(links, id)
    ensures var todo := LinksIn(links, id);
            IsGone(initial, links[id := todo[1..]], l) <==> IsGone(initial, links, l) || l == todo[0]
  {
    var todo := LinksIn(links, id);
    var next := links[id := todo[1..]];
    GoneNext(initial, links, id, id);
    hide GoneOf;
    if x :| l in GoneOf(initial, links, x) {
      GoneNext(initial, links, id, x);
      assert l in GoneOf(initial, next, x);
    }
    assert todo[0] in GoneOf(initial, next, id);
    if x :| l in GoneOf(initial, next, x) {
      GoneNext(initial, links, id, x);
      assert l == todo[0] || l in GoneOf(initial, links, x);
    }
  }

  lemma OneMoreGone(initial: Links, links: Links, removed: set<nat>, id: Id)
    requires Accounted(initial, links, removed) && LinksIn(links, id) != []
    ensures var todo := LinksIn(links, id);
            Accounted(initial, links[id := todo[1..]], removed + {todo[0]})
  {
    hide GoneOf, IsGone;
    var todo := LinksIn(links, id);
    var next := links[id := todo[1..]];
    forall x ensures LinksIn(initial, x) == GoneOf(initial, next, x) + LinksIn(next, x) {
      StillSplit(initial, links, id, x);
    }
    forall l ensures l in removed + {todo[0]} <==> IsGone(initial, next, l) {
      IsGoneNext(initial, links, id, l);
    }
  }

  /** deleteBatch and the store it works on: the links of each program, the programs unloaded so far in
      order, and which of the calls fail. */
  class Batch {
    const graph: Graph
    const faults: nat -> bool
    /** The links when the batch began. */
    ghost const initial: Links
    var links: Links
    var removed: set<Id>
    var removedLinks: set<nat>
    var calls: nat
    ghost var unloaded: seq<Id>

    constructor (graph: Graph, links: Links, faults: nat -> bool)
      ensures this.graph == graph && this.links == links && initial == links && unloaded == [] && Valid()
      ensures this.faults == faults && calls == 0
    {
      this.graph, this.links, this.faults, initial := graph, links, faults, links;
      removed, removedLinks, calls, unloaded := {}, {}, 0, [];
    }

    ghost predicate Valid()
      reads this
    {
      && removed == Elements(unloaded) && NoRepeats(unloaded) && (forall x :: x in removed ==> LinksOf(x) == [])
      && Accounted(initial, links, removedLinks)
    }

    function LinksOf(id: Id): seq<nat>
      reads this
    {
      LinksIn(links, id)
    }

    /** No call from now on fails. */
    ghost predicate Quiet()
      reads this
    {
      forall k :: calls <= k ==> !faults(k)
    }

    method Fault() returns (fails: bool)
      modifies this`calls
      ensures fails == faults(old(calls)) && calls == old(calls) + 1
    {
      fails := faults(calls);
      calls := calls + 1;
    }

    /** List the links, detach them one by one. */
    method DetachLinks(id: Id) returns (ok: bool)
      requires Valid() && id !in removed
      modifies this`links, this`removedLinks, this`calls
      ensures Valid() && SparesBut(old(links), links, id)
      ensures ok ==> LinksOf(id) == []
      ensures calls >= old(calls) && (old(Quiet()) ==> ok)
    {
      hide Accounted, NoRepeats;
      var fails := Fault();
      if fails {
        return false;
      }
      var todo := LinksOf(id);
      while todo != []
        invariant Valid() && LinksOf(id) == todo && SparesBut(old(links), links, id)
        invariant calls >= old(calls)
      {
        fails := Fault();
        if fails {
          return false;
        }
        OneMoreGone(initial, links, removedLinks, id);
        removedLinks := removedLinks + {todo[0]};
        todo := todo[1..];
        links := links[id := todo];
      }
      return true;
    }

    /** Detach the links, then unload. Only this program's links are touched. */
    method DetachAndUnload(id: Id) returns (ok: bool)
      requires Valid() && id !in removed
      modifies this
      ensures Valid() && SparesBut(old(links), links, id)
      ensures ok ==> removed == old(removed) + {id} && unloaded == old(unloaded) + [id]
      ensures !ok ==> removed == old(removed) && unloaded == old(unloaded)
      ensures calls >= old(calls) && (old(Quiet()) ==> ok)
    {
      hide Accounted;
      ok := DetachLinks(id);
      if !ok {
        return;
      }
      var fails := Fault();
      if fails {
        return false;
      }
      assert id !in unloaded by {
        assert id !in Elements(unloaded);
      }
      assert Elements(unloaded + [id]) == Elements(unloaded) + {id};
      removed := removed + {id};
      unloaded := unloaded + [id];
      return true;
    }

    /** deleteProgram with recursive set, on a graph without cycles. Without a failing call it succeeds. */
    method DeleteProgram(id: Id) returns (ok: bool)
      requires Valid() && UnloadOrder(graph, unloaded) && NoCycle(graph)
      modifies this
      ensures Valid() && UnloadOrder(graph, unloaded) && old(unloaded) <= unloaded && old(removed) <= removed
      ensures WithinReach(graph, id, removed - old(removed)) && SparesOutside(graph, old(links), links, id)
      ensures ok ==> forall x :: Reaches(graph, id, x) ==> x in removed
      ensures calls >= old(calls) && (old(Quiet()) ==> ok)
      decreases Rank(graph)(id), 1
    {
      hide Accounted, Reaches, NoRepeats, SparesOutside, SparesBut;
      SparesAll(graph, links, id);
      if id in removed {
        RemovedHolds(graph, unloaded);
        HeldReach(graph, removed, id);
        return true;
      }
      ok := DeleteDependents(id);
      if !ok {
        return;
      }
      ghost var before, middle := unloaded, links;
      assert forall d :: d in Deps(graph, id) ==> d in Elements(unloaded);
      assert id !in Elements(unloaded);
      ok := DetachAndUnload(id);
      ReachSelf(graph, id);
      SparesSelf(graph, old(links), middle, links, id);
      if ok {
        UnloadAppend(graph, before, id);
        RemovedHolds(graph, unloaded);
        HeldReach(graph, removed, id);
      }
    }

    method DeleteDependents(owner: Id) returns (ok: bool)
      requires Valid() && UnloadOrder(graph, unloaded) && owner !in removed && NoCycle(graph)
      modifies this
      ensures Valid() && UnloadOrder(graph, unloaded) && old(unloaded) <= unloaded && old(removed) <= removed
      ensures WithinReach(graph, owner, removed - old(removed)) && SparesOutside(graph, old(links), links, owner)
      ensures owner !in removed
      ensures ok ==> forall d :: d in Deps(graph, owner) ==> d in removed
      ensures calls >= old(calls) && (old(Quiet()) ==> ok)
      decreases Rank(graph)(owner), 0
    {
      hide Accounted, Reaches, NoRepeats, UnloadOrder, SparesOutside;
      SparesAll(graph, links, owner);
      var deps := Deps(graph, owner);
      for k := 0 to |deps|
        invariant Valid() && UnloadOrder(graph, unloaded) && old(unloaded) <= unloaded && old(removed) <= removed
        invariant WithinReach(graph, owner, removed - old(removed)) && owner !in removed
        invariant SparesOutside(graph, old(links), links, owner)
        invariant calls >= old(calls) && forall j :: 0 <= j < k ==> deps[j] in removed
      {
        var d := deps[k];
        if d in removed {
          continue;
        }
        ghost var before, middle := removed, links;
        ok := DeleteProgram(d);
        SparesDependent(graph, old(links), middle, links, owner, d);
        forall x | x in removed - before ensures Reaches(graph, owner, x) && x != owner {
          ReachStep(graph, owner, d, x);
          ReachRank(graph, Nodes(graph), Rank(graph), d, x);
        }
        assert owner !in removed - before;
        assert removed - old(removed) == (removed - before) + (before - old(removed));
        if !ok {
          return;
        }
        ReachSelf(graph, d);
      }
      return true;
    }
  }

  lemma SparesAll(graph: Graph, links: Links, id: Id)
    ensures SparesOutside(graph, links, links, id)
  {}

  lemma UnloadAppend(graph: Graph, unloaded: seq<Id>, id: Id)
    requires UnloadOrder(graph, unloaded) && id !in unloaded
    requires forall d :: d in Deps(graph, id) ==> d in unloaded
    ensures UnloadOrder(graph, unloaded + [id])
  {
    var next := unloaded + [id];
    forall i, d | 0 <= i < |next| && d in Deps(graph, next[i]) ensures d in next[..i] {
      assert next[..i] == unloaded[..i];
      assert unloaded[..|unloaded|] == unloaded;
    }
  }

  /** The rank does not rise along a path. */
  lemma ReachRank(graph: Graph, all: set<Id>, rank: Id -> nat, from: Id, to: Id)
    requires Ranked(rank, graph, all) && HoldsDependents(graph, all) && from in all && Reaches(graph, from, to)
    ensures rank(to) <= rank(from)
  {
    var path :| DependencyPath(path, graph, from, to);
    PathRank(graph, all, rank, path, from, to);
  }

  lemma {:induction false} PathRank(graph: Graph, all: set<Id>, rank: Id -> nat, path: seq<Id>, from: Id, to: Id)
    requires Ranked(rank, graph, all) && HoldsDependents(graph, all) && from in all
    requires DependencyPath(path, graph, from, to)
    ensures rank(to) <= rank(from)
    decreases |path|
  {
    if |path| > 1 {
      assert path[0 + 1] in Deps(graph, path[0]);
      var rest := path[1..];
      forall i | 0 <= i < |rest| - 1 ensures rest[i + 1] in Deps(graph, rest[i]) {
        assert path[i + 1 + 1] in Deps(graph, path[i + 1]);
      }
      PathRank(graph, all, rank, rest, path[1], to);
    }
  }

  lemma RemovedHolds(graph: Graph, unloaded: seq<Id>)
    requires UnloadOrder(graph, unloaded)
    ensures HoldsDependents(graph, Elements(unloaded))
  {
    forall x, d | x in Elements(unloaded) && d in Deps(graph, x) ensures d in Elements(unloaded) {
      var i :| 0 <= i < |unloaded| && unloaded[i] == x;
      assert d in unloaded[..i];
    }
  }

  datatype Outcome = Outcome(id: Id, ok: bool)

  /** No selected program was unloaded before one of its selected dependents that was unloaded too. */
  ghost predicate NeverEarly(graph: Graph, selected: set<Id>, unloaded: seq<Id>) {
    forall i, d :: 0 <= i < |unloaded| && d in Deps(graph, unloaded[i]) && d in selected && d in unloaded ==> d in unloaded[..i]
  }

  lemma NeverEarlyAppend(graph: Graph, selected: set<Id>, order: seq<Id>, k: nat, unloaded: seq<Id>)
    requires OwnersLast(order, graph, selected) && NoRepeats(order) && k < |order|
    requires NeverEarly(graph, selected, unloaded) && Elements(unloaded) <= Elements(order[..k])
    ensures NeverEarly(graph, selected, unloaded + [order[k]])
    ensures Elements(unloaded + [order[k]]) <= Elements(order[..k + 1])
  {
    var id, next := order[k], unloaded + [order[k]];
    assert order[..k + 1] == order[..k] + [id];
    forall x | x in Elements(next) ensures x in Elements(order[..k + 1]) {
      assert x == id || x in Elements(unloaded);
    }
    forall i, d | 0 <= i < |next| && d in Deps(graph, next[i]) && d in selected && d in next ensures d in next[..i] {
      if i < |unloaded| {
        assert next[..i] == unloaded[..i];
        assert next[i] in Elements(unloaded);
        var j :| 0 <= j < k && order[j] == next[i];
        assert d in order[..j];
      } else {
        assert next[..i] == unloaded;
        assert d in order[..k];
      }
    }
  }

  /** Results for exactly the ids of the order. */
  lemma ResultIds(results: seq<Outcome>, order: seq<Id>)
    requires |results| == |order| && forall i :: 0 <= i < |order| ==> results[i].id == order[i]
    ensures (set r | r in results :: r.id) == Elements(order)
  {
    forall x ensures x in (set r | r in results :: r.id) <==> x in Elements(order) {
      if x in Elements(order) {
        var i :| 0 <= i < |order| && order[i] == x;
        assert results[i] in results;
      }
    }
  }

  lemma NothingEarly(graph: Graph, selected: set<Id>, unloaded: seq<Id>)
    requires graph == map[] || unloaded == []
    ensures NeverEarly(graph, selected, unloaded)
  {}

  lemma SingleOwnersLast(id: Id, graph: Graph)
    requires Acyclic(graph, {id})
    ensures OwnersLast([id], graph, {id}) && NoRepeats([id])
  {
    assert !Cycle([id, id], graph, {id});
  }

  lemma SelectedOrdered(ids: seq<Id>, order: seq<Id>, graph: Graph)
    requires Acyclic(graph, Elements(ids))
    requires if |ids| <= 1 then order == ids else OwnersLast(order, graph, Elements(ids)) && NoRepeats(order)
    ensures OwnersLast(order, graph, Elements(ids)) && NoRepeats(order)
  {
    if |ids| == 1 {
      assert ids == [ids[0]] && Elements(ids) == {ids[0]};
      SingleOwnersLast(ids[0], graph);
    }
  }

  /** DeletePrograms without Recursive: each listed program alone, dependents first when there are no cycles. */
  method DeleteSelected(ids: seq<Id>, batch: Batch) returns (results: seq<Outcome>)
    requires batch.Valid() && batch.unloaded == []
    modifies batch
    ensures batch.Valid() && batch.removed <= Elements(ids)
    ensures forall x :: x !in ids ==> batch.LinksOf(x) == old(batch.LinksOf(x))
    ensures Acyclic(batch.graph, Elements(ids)) ==> NeverEarly(batch.graph, Elements(ids), batch.unloaded)
    ensures (set r | r in results :: r.id) == Elements(ids)
    ensures forall r :: r in results && r.ok ==> r.id in batch.removed
    ensures forall x :: x in batch.removed ==> Outcome(x, true) in results
    ensures old(batch.Quiet()) ==> forall r :: r in results ==> r.ok
  {
    hide Accounted, Acyclic, OwnersLast, NoRepeats, NeverEarly;
    var order := OrderProgramDeletes(ids, batch.graph);
    assert Elements(order) == Elements(ids);
    results := [];
    ghost var graph, ordered := batch.graph, Acyclic(batch.graph, Elements(ids)) && batch.graph != map[];
    if ordered { SelectedOrdered(ids, order, graph); }
    NothingEarly(graph, Elements(ids), []);
    for k := 0 to |order|
      invariant batch.Valid() && Elements(batch.unloaded) <= Elements(order[..k])
      invariant ordered ==> NeverEarly(graph, Elements(ids), batch.unloaded)
      invariant forall x :: x !in ids ==> batch.LinksOf(x) == old(batch.LinksOf(x))
      invariant batch.calls >= old(batch.calls) && (old(batch.Quiet()) ==> forall r :: r in results ==> r.ok)
      invariant |results| == k && forall i :: 0 <= i < k ==> results[i].id == order[i]
      invariant forall i :: 0 <= i < k && results[i].ok ==> results[i].id in batch.removed
      invariant forall x :: x in batch.removed ==> Outcome(x, true) in results
    {
      assert order[..k + 1] == order[..k] + [order[k]];
      assert order[k] in Elements(ids);
      if order[k] in batch.removed {
        results := results + [Outcome(order[k], true)];
      } else {
        if ordered { NeverEarlyAppend(graph, Elements(ids), order, k, batch.unloaded); }
        var ok := batch.DetachAndUnload(order[k]);
        results := results + [Outcome(order[k], ok)];
      }
    }
    assert order[..|order|] == order;
    if graph == map[] { NothingEarly(graph, Elements(ids), batch.unloaded); }
    ResultIds(results, order);
  }

  /** DeletePrograms with Recursive or All. */
  method DeleteRecursively(ids: seq<Id>, batch: Batch) returns (results: seq<Outcome>)
    requires batch.Valid() && batch.unloaded == [] && NoCycle(batch.graph)
    modifies batch
    ensures batch.Valid() && UnloadOrder(batch.graph, batch.unloaded)
    ensures forall x :: x in batch.removed ==> exists id :: id in ids && Reaches(batch.graph, id, x)
    ensures forall r, x :: r in results && r.ok && Reaches(batch.graph, r.id, x) ==> x in batch.removed
    ensures forall x :: (forall id :: id in ids ==> !Reaches(batch.graph, id, x)) ==> batch.LinksOf(x) == old(batch.LinksOf(x))
    ensures (set r | r in results :: r.id) == Elements(ids)
    ensures old(batch.Quiet()) ==> forall r :: r in results ==> r.ok
  {
    hide Accounted, Reaches;
    var order := OrderProgramDeletes(ids, batch.graph);
    assert Elements(order) == Elements(ids);
    results := [];
    for k := 0 to |order|
      invariant batch.Valid() && UnloadOrder(batch.graph, batch.unloaded)
      invariant forall x :: x in batch.removed ==> exists id :: id in ids && Reaches(batch.graph, id, x)
      invariant forall x :: (forall id :: id in ids ==> !Reaches(batch.graph, id, x)) ==>
                  batch.LinksOf(x) == old(batch.LinksOf(x))
      invariant batch.calls >= old(batch.calls) && (old(batch.Quiet()) ==> forall r :: r in results ==> r.ok)
      invariant |results| == k && forall i :: 0 <= i < k ==> results[i].id == order[i]
      invariant forall i, x :: 0 <= i < k && results[i].ok && Reaches(batch.graph, results[i].id, x) ==> x in batch.removed
    {
      assert order[k] in Elements(ids);
      ghost var before := batch.removed;
      var ok := batch.DeleteProgram(order[k]);
      results := results + [Outcome(order[k], ok)];
      forall x | x in batch.removed ensures exists id :: id in ids && Reaches(batch.graph, id, x) {
        if x !in before {
          assert x in batch.removed - before;
          assert order[k] in ids && Reaches(batch.graph, order[k], x);
        }
      }
    }
    ResultIds(results, order);
  }
}
