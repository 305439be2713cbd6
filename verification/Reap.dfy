/** planReap: which dead program records to delete, and in what order. */
module Reap {

  type Id = nat

  datatype Owner = NoOwner | OwnedBy(id: Id)

  /** The store's programs with the map owner each one records. */
  type Programs = map<Id, Owner>

  /** The programs that record id as their map owner and are not in removed. */
  function Dependents(progs: Programs, removed: set<Id>, id: Id): set<Id> {
    set p | p in progs && p !in removed && progs[p] == OwnedBy(id)
  }

  function Dead(progs: Programs, live: set<Id>): set<Id> {
    progs.Keys - live
  }

  /** Every dead program all of whose dependents are in s is in s. */
  ghost predicate Closed(progs: Programs, live: set<Id>, s: set<Id>) {
    forall id :: id in Dead(progs, live) && Dependents(progs, {}, id) <= s ==> id in s
  }

  /** The least such set. */
  ghost predicate Least(progs: Programs, live: set<Id>, s: set<Id>) {
    && s <= Dead(progs, live) && Closed(progs, live, s)
    && forall t :: Closed(progs, live, t) ==> s <= t
  }

  ghost predicate NoRepeats(plan: seq<Id>) {
    forall i, j :: 0 <= i < j < |plan| ==> plan[i] != plan[j]
  }

  function Elements(s: seq<Id>): set<Id> {
    set x | x in s
  }

  /** When plan[i] is deleted no record left in the store names it as owner. */
  ghost predicate DependentsFirst(progs: Programs, plan: seq<Id>) {
    forall i :: 0 <= i < |plan| ==> Dependents(progs, Elements(plan[..i]), plan[i]) == {}
  }

  ghost predicate Ascending(s: seq<Id>) {
    forall i, j :: 0 <= i < j < |s| ==> s[i] < s[j]
  }

  // The plan as a function of the observed snapshot.

  /** One sweep over the sorted dead IDs. */
  function Sweep(progs: Programs, ids: seq<Id>, plan: seq<Id>): (r: seq<Id>)
    ensures plan <= r
    ensures Elements(r) <= Elements(plan) + Elements(ids)
  {
    if ids == [] then plan
    else
      var id := ids[0];
      var next := if id in plan || Dependents(progs, Elements(plan), id) != {} then plan else plan + [id];
      assert id in ids;
      assert Elements(ids[1..]) <= Elements(ids);
      Sweep(progs, ids[1..], next)
  }

  /** Sweeps until one makes no progress. */
  function Sweeps(progs: Programs, ids: seq<Id>, plan: seq<Id>): seq<Id>
    decreases Elements(ids) - Elements(plan)
  {
    var next := Sweep(progs, ids, plan);
    if next == plan then plan
    else
      SweepShrinks(progs, ids, plan);
      Sweeps(progs, ids, next)
  }

  lemma SweepShrinks(progs: Programs, ids: seq<Id>, plan: seq<Id>)
    requires Sweep(progs, ids, plan) != plan
    ensures Elements(ids) - Elements(Sweep(progs, ids, plan)) < Elements(ids) - Elements(plan)
  {
    var next := Sweep(progs, ids, plan);
    SweepProgress(progs, ids, plan);
    var x :| x in next && x in ids && x !in plan;
    assert x in Elements(ids) - Elements(plan) && x !in Elements(ids) - Elements(next);
    assert forall y :: y in plan ==> y in next;
  }

  lemma {:induction false} SweepProgress(progs: Programs, ids: seq<Id>, plan: seq<Id>)
    ensures Sweep(progs, ids, plan) == plan || exists x :: x in Sweep(progs, ids, plan) && x in ids && x !in plan
  {
    if ids != [] {
      var id := ids[0];
      if id in plan || Dependents(progs, Elements(plan), id) != {} {
        SweepProgress(progs, ids[1..], plan);
      } else {
        assert id in plan + [id] && plan + [id] <= Sweep(progs, ids, plan);
      }
    }
  }

  /** The ascending list of a set. */
  function SortedIds(s: set<Id>): (r: seq<Id>)
    ensures Ascending(r) && Elements(r) == s
  {
    if s == {} then []
    else
      var m := Greatest(s);
      var init := SortedIds(s - {m});
      assert forall x :: x in Elements(init) <==> x in init;
      assert Elements(init + [m]) == Elements(init) + {m};
      init + [m]
  }

  function Greatest(s: set<Id>): (m: Id)
    requires s != {}
    ensures m in s && forall x :: x in s ==> x <= m
  {
    GreatestExists(s);
    var m :| m in s && forall x :: x in s ==> x <= m;
    m
  }

  lemma {:induction false} GreatestExists(s: set<Id>)
    requires s != {}
    ensures exists m :: m in s && forall x :: x in s ==> x <= m
  {
    var y :| y in s;
    var rest := s - {y};
    if rest == {} {
      assert s == rest + {y};
    } else {
      GreatestExists(rest);
      var m :| m in rest && forall x :: x in rest ==> x <= m;
      var top := if y <= m then m else y;
      assert forall x :: x in s ==> x == y || x in rest;
      assert top in s && forall x :: x in s ==> x <= top;
    }
  }

  lemma {:induction false} AscendingUnique(a: seq<Id>, b: seq<Id>)
    requires Ascending(a) && Ascending(b) && Elements(a) == Elements(b)
    ensures a == b
  {
    assert a != [] ==> a[0] in Elements(b);
    assert b != [] ==> b[0] in Elements(a);
    if a != [] {
      assert a[0] in Elements(b);
      assert b[0] in Elements(a);
      assert a[0] == b[0];
      forall x ensures x in a[1..] <==> x in b[1..] {
        assert x in a <==> x in Elements(b);
        assert a == [a[0]] + a[1..] && b == [b[0]] + b[1..];
      }
      AscendingUnique(a[1..], b[1..]);
    }
  }

  function Plan(progs: Programs, live: set<Id>): seq<Id> {
    Sweeps(progs, SortedIds(Dead(progs, live)), [])
  }

  // What any plan built that way satisfies.

  lemma {:induction false} SweepStuck(progs: Programs, ids: seq<Id>, plan: seq<Id>)
    requires Sweep(progs, ids, plan) == plan
    ensures forall id :: id in ids ==> id in plan || Dependents(progs, Elements(plan), id) != {}
  {
    if ids != [] {
      var id := ids[0];
      assert id !in plan && Dependents(progs, Elements(plan), id) == {} ==> plan + [id] <= Sweep(progs, ids, plan);
      SweepStuck(progs, ids[1..], plan);
    }
  }

  /** Deleting dependents first never goes outside the least set. */
  lemma {:induction false} WithinClosed(progs: Programs, live: set<Id>, plan: seq<Id>, t: set<Id>, n: nat)
    requires DependentsFirst(progs, plan) && Elements(plan) <= Dead(progs, live) && Closed(progs, live, t) && n <= |plan|
    ensures Elements(plan[..n]) <= t
  {
    if n > 0 {
      WithinClosed(progs, live, plan, t, n - 1);
      var id := plan[n - 1];
      assert id in Elements(plan);
      assert Dependents(progs, Elements(plan[..n - 1]), id) == {};
      forall p | p in Dependents(progs, {}, id) ensures p in t {
        assert p !in Dependents(progs, Elements(plan[..n - 1]), id);
      }
      assert plan[..n] == plan[..n - 1] + [id];
    }
  }

  lemma StuckIsLeast(progs: Programs, live: set<Id>, plan: seq<Id>)
    requires DependentsFirst(progs, plan) && Elements(plan) <= Dead(progs, live)
    requires forall id :: id in Dead(progs, live) ==> id in plan || Dependents(progs, Elements(plan), id) != {}
    ensures Least(progs, live, Elements(plan))
  {
    forall id | id in Dead(progs, live) && Dependents(progs, {}, id) <= Elements(plan) ensures id in Elements(plan) {
      assert forall p :: p in Dependents(progs, Elements(plan), id) ==> p in Dependents(progs, {}, id);
    }
    forall t | Closed(progs, live, t) ensures Elements(plan) <= t {
      WithinClosed(progs, live, plan, t, |plan|);
      assert plan[..|plan|] == plan;
    }
  }

  lemma AppendFirst(progs: Programs, plan: seq<Id>, id: Id)
    requires DependentsFirst(progs, plan) && NoRepeats(plan)
    requires id !in plan && Dependents(progs, Elements(plan), id) == {}
    ensures DependentsFirst(progs, plan + [id]) && NoRepeats(plan + [id])
    ensures Elements(plan + [id]) == Elements(plan) + {id}
  {
    var next := plan + [id];
    forall i | 0 <= i < |next| ensures Dependents(progs, Elements(next[..i]), next[i]) == {} {
      assert next[..i] == plan[..i];
      assert plan[..|plan|] == plan;
    }
  }

  // The counts the loop keeps instead of the sets.

  function CountOf(deps: map<Id, int>, id: Id): int {
    if id in deps then deps[id] else 0
  }

  ghost predicate CountsDependents(progs: Programs, removed: set<Id>, deps: map<Id, int>) {
    forall id :: CountOf(deps, id) == |Dependents(progs, removed, id)|
  }

  lemma RemoveCounts(progs: Programs, removed: set<Id>, deps: map<Id, int>, id: Id)
    requires CountsDependents(progs, removed, deps) && id in progs && id !in removed
    ensures CountsDependents(progs, removed + {id},
              match progs[id] case NoOwner => deps case OwnedBy(o) => deps[o := CountOf(deps, o) - 1])
  {
    var next := match progs[id] case NoOwner => deps case OwnedBy(o) => deps[o := CountOf(deps, o) - 1];
    forall x ensures CountOf(next, x) == |Dependents(progs, removed + {id}, x)| {
      assert CountOf(deps, x) == |Dependents(progs, removed, x)|;
      if progs[id] == OwnedBy(x) {
        assert Dependents(progs, removed + {id}, x) == Dependents(progs, removed, x) - {id};
      } else {
        assert Dependents(progs, removed + {id}, x) == Dependents(progs, removed, x);
      }
    }
  }

  /** The first pass: deps[*owner]++ over the records in any order. */
  method CountDependents(progs: Programs) returns (deps: map<Id, int>)
    ensures CountsDependents(progs, {}, deps)
  {
    deps := map[];
    var todo := progs.Keys;
    assert CountsDependents(progs, progs.Keys, deps) by {
      assert forall id :: Dependents(progs, progs.Keys, id) == {};
    }
    while todo != {}
      invariant todo <= progs.Keys
      invariant CountsDependents(progs, todo, deps)
    {
      var id :| id in todo;
      ghost var before := deps;
      match progs[id] {
        case NoOwner =>
        case OwnedBy(owner) => deps := deps[owner := CountOf(deps, owner) + 1];
      }
      forall x ensures CountOf(deps, x) == |Dependents(progs, todo - {id}, x)| {
        assert CountOf(before, x) == |Dependents(progs, todo, x)|;
        if progs[id] == OwnedBy(x) {
          assert Dependents(progs, todo - {id}, x) == Dependents(progs, todo, x) + {id};
        } else {
          assert Dependents(progs, todo - {id}, x) == Dependents(progs, todo, x);
        }
      }
      todo := todo - {id};
    }
  }

  /** What the loops keep: the deletions so far are in order, `removed` is their set and `deps` counts the
      dependents that are left. */
  ghost predicate Kept(progs: Programs, live: set<Id>, plan: seq<Id>, removed: set<Id>, deps: map<Id, int>) {
    && removed == Elements(plan) && removed <= Dead(progs, live)
    && NoRepeats(plan) && DependentsFirst(progs, plan) && CountsDependents(progs, removed, deps)
  }

  lemma KeptAppend(progs: Programs, live: set<Id>, plan: seq<Id>, removed: set<Id>, deps: map<Id, int>, id: Id)
    requires Kept(progs, live, plan, removed, deps) && id in Dead(progs, live)
    requires id !in removed && CountOf(deps, id) <= 0
    ensures id !in plan && Dependents(progs, Elements(plan), id) == {}
    ensures Kept(progs, live, plan + [id], removed + {id},
              match progs[id] case NoOwner => deps case OwnedBy(o) => deps[o := CountOf(deps, o) - 1])
  {
    hide NoRepeats, DependentsFirst;
    assert CountOf(deps, id) == |Dependents(progs, removed, id)|;
    AppendFirst(progs, plan, id);
    RemoveCounts(progs, removed, deps, id);
  }

  lemma KeptSkip(progs: Programs, live: set<Id>, plan: seq<Id>, removed: set<Id>, deps: map<Id, int>, id: Id)
    requires Kept(progs, live, plan, removed, deps) && (id in removed || CountOf(deps, id) > 0)
    ensures id in plan || Dependents(progs, Elements(plan), id) != {}
  {
    assert CountOf(deps, id) == |Dependents(progs, removed, id)|;
  }

  /** The inner loop. */
  method SweepOnce(progs: Programs, ghost live: set<Id>, ids: seq<Id>, plan0: seq<Id>, removed0: set<Id>, deps0: map<Id, int>)
      returns (plan: seq<Id>, removed: set<Id>, deps: map<Id, int>, progress: bool)
    requires Kept(progs, live, plan0, removed0, deps0) && Elements(ids) == Dead(progs, live)
    ensures Kept(progs, live, plan, removed, deps)
    ensures plan == Sweep(progs, ids, plan0) && (progress <==> plan != plan0)
  {
    hide Kept;
    plan, removed, deps, progress := plan0, removed0, deps0, false;
    for i := 0 to |ids|
      invariant Kept(progs, live, plan, removed, deps)
      invariant plan0 <= plan && (progress <==> plan0 != plan)
      invariant Sweep(progs, ids, plan0) == Sweep(progs, ids[i..], plan)
    {
      var id := ids[i];
      assert id in Elements(ids);
      assert ids[i..][0] == id && ids[i..][1..] == ids[i + 1..];
      if id in removed || CountOf(deps, id) > 0 {
        KeptSkip(progs, live, plan, removed, deps, id);
        continue;
      }
      KeptAppend(progs, live, plan, removed, deps, id);
      plan := plan + [id];
      removed := removed + {id};
      match progs[id] {
        case NoOwner =>
        case OwnedBy(owner) => deps := deps[owner := CountOf(deps, owner) - 1];
      }
      progress := true;
    }
  }

  method PlanReap(progs: Programs, live: set<Id>) returns (plan: seq<Id>)
    ensures plan == Plan(progs, live)
    ensures NoRepeats(plan) && Least(progs, live, Elements(plan)) && DependentsFirst(progs, plan)
  {
    hide Least, NoRepeats, DependentsFirst, CountsDependents;
    var deadIDs := SortedIds(Dead(progs, live));
    var deps := CountDependents(progs);
    var removed: set<Id> := {};
    plan := [];
    KeptStart(progs, live, deps);
    var progress := true;
    while progress
      invariant Kept(progs, live, plan, removed, deps)
      invariant Plan(progs, live) == Sweeps(progs, deadIDs, plan)
      invariant !progress ==> Sweep(progs, deadIDs, plan) == plan
      decreases Dead(progs, live) - Elements(plan), progress
    {
      ghost var before := plan;
      plan, removed, deps, progress := SweepOnce(progs, live, deadIDs, plan, removed, deps);
      if progress {
        SweepShrinks(progs, deadIDs, before);
      }
    }
    SweepStuck(progs, deadIDs, plan);
    assert forall id :: id in Dead(progs, live) ==> id in Elements(deadIDs);
    StuckIsLeast(progs, live, plan);
  }

  lemma KeptStart(progs: Programs, live: set<Id>, deps: map<Id, int>)
    requires CountsDependents(progs, {}, deps)
    ensures Kept(progs, live, [], {}, deps)
  {}
}
