/** TCX attach: the place computed from the stored links keeps the kernel's chain in priority order. */
module Tcx {

  import opened Options

  type ProgramId = nat
  type LinkId = nat

  datatype Row = Row(linkId: LinkId, prog: ProgramId, priority: int)

  datatype Order = First | Before(anchor: ProgramId) | After(anchor: ProgramId)

  datatype Answer = Live | Dead | Inconclusive

  /** int32(priority). */
  function Narrow(priority: int): int {
    (priority + 0x8000_0000) % 0x1_0000_0000 - 0x8000_0000
  }

  /** The order of ListTCXLinksByInterface: priority, then link ID, which is attach order. */
  predicate Precedes(a: Row, b: Row) {
    a.priority < b.priority || (a.priority == b.priority && a.linkId < b.linkId)
  }

  ghost predicate Listed(rows: seq<Row>) {
    forall i, j :: 0 <= i < j < |rows| ==> Precedes(rows[i], rows[j])
  }

  ghost predicate OneRowEach(rows: seq<Row>) {
    forall i, j :: 0 <= i < j < |rows| ==> rows[i].prog != rows[j].prog
  }

  ghost predicate NoRepeats<T>(s: seq<T>) {
    forall i, j :: 0 <= i < j < |s| ==> s[i] != s[j]
  }

  /** The managed part of the chain runs in listing order, whatever foreign programs lie in between. */
  ghost predicate ChainOrdered(chain: seq<ProgramId>, rows: seq<Row>) {
    forall i, j :: 0 <= i < j < |chain| ==> RowsOrdered(rows, chain[i], chain[j])
  }

  /** The rows of p, if any, precede the rows of q. */
  ghost predicate RowsOrdered(rows: seq<Row>, p: ProgramId, q: ProgramId) {
    forall a, b :: a in rows && b in rows && a.prog == p && b.prog == q ==> Precedes(a, b)
  }

  /** No row of p has a priority number above the given one. */
  ghost predicate AtMost(rows: seq<Row>, p: ProgramId, priority: int) {
    forall a :: a in rows && a.prog == p ==> a.priority <= priority
  }

  ghost predicate Above(rows: seq<Row>, p: ProgramId, priority: int) {
    forall a :: a in rows && a.prog == p ==> priority < a.priority
  }

  // The searches.

  function Filter(rows: seq<Row>, keep: ProgramId -> bool): (r: seq<Row>)
    ensures forall x :: x in r <==> x in rows && keep(x.prog)
  {
    if rows == [] then []
    else
      var init, last := rows[..|rows| - 1], rows[|rows| - 1];
      assert rows == init + [last];
      Filter(init, keep) + if keep(last.prog) then [last] else []
  }

  lemma {:induction false} FilterListed(rows: seq<Row>, keep: ProgramId -> bool)
    requires Listed(rows)
    ensures Listed(Filter(rows, keep))
  {
    if rows != [] {
      var init, last := rows[..|rows| - 1], rows[|rows| - 1];
      FilterListed(init, keep);
      forall x | x in Filter(init, keep) ensures Precedes(x, last) {
        assert x in init;
      }
    }
  }

  /** filterLiveTCXLinks: exactly the links whose program is live, asking once per program. */
  method FilterLive(rows: seq<Row>, isLive: ProgramId -> bool) returns (live: seq<Row>, ghost asked: seq<ProgramId>)
    ensures live == Filter(rows, isLive)
    ensures NoRepeats(asked) && forall r :: r in rows ==> r.prog in asked
  {
    live, asked := [], [];
    var checked: map<ProgramId, bool> := map[];
    for i := 0 to |rows|
      invariant live == Filter(rows[..i], isLive)
      invariant NoRepeats(asked) && forall x :: x in asked <==> x in checked
      invariant forall x :: x in checked ==> checked[x] == isLive(x)
      invariant forall j :: 0 <= j < i ==> rows[j].prog in checked
    {
      var l := rows[i];
      assert rows[..i + 1][..i] == rows[..i];
      if l.prog !in checked {
        asked := asked + [l.prog];
        checked := checked[l.prog := isLive(l.prog)];
      }
      if checked[l.prog] {
        live := live + [l];
      }
    }
    assert rows[..|rows|] == rows;
  }

  /** computeTCXAttachOrder. */
  method ComputeOrder(links: seq<Row>, priority: int) returns (order: Order)
    ensures order == OrderFor(links, priority)
    ensures links == [] <==> order.First?
    ensures order.Before? ==> exists i :: 0 <= i < |links| && order.anchor == links[i].prog && links[i].priority > priority
                                          && forall j :: 0 <= j < i ==> links[j].priority <= priority
    ensures order.After? ==> order.anchor == links[|links| - 1].prog && forall x :: x in links ==> x.priority <= priority
  {
    if |links| == 0 {
      return First;
    }
    for i := 0 to |links|
      invariant FirstAbove(links, priority) == if FirstAbove(links[i..], priority).Some?
                                               then Some(i + FirstAbove(links[i..], priority).value) else None
    {
      assert links[i..][0] == links[i] && links[i..][1..] == links[i + 1..];
      if links[i].priority > priority {
        return Before(links[i].prog);
      }
    }
    return After(links[|links| - 1].prog);
  }

  /** The first link of a higher priority number. */
  function FirstAbove(links: seq<Row>, priority: int): (r: Option<nat>)
    ensures r.Some? ==> r.value < |links| && links[r.value].priority > priority
    ensures r.Some? ==> forall i :: 0 <= i < r.value ==> links[i].priority <= priority
    ensures r.None? ==> forall i :: 0 <= i < |links| ==> links[i].priority <= priority
  {
    if links == [] then None
    else if links[0].priority > priority then Some(0)
    else match FirstAbove(links[1..], priority) case None => None case Some(k) => Some(k + 1)
  }

  function OrderFor(links: seq<Row>, priority: int): Order {
    if links == [] then First
    else match FirstAbove(links, priority)
         case Some(i) => Before(links[i].prog)
         case None => After(links[|links| - 1].prog)
  }

  // The kernel's chain.

  function Place(chain: seq<ProgramId>, p: ProgramId): (r: Option<nat>)
    ensures r.Some? ==> r.value < |chain| && chain[r.value] == p
    ensures r.None? ==> p !in chain
  {
    if chain == [] then None
    else if chain[|chain| - 1] == p then Some(|chain| - 1)
    else Place(chain[..|chain| - 1], p)
  }

  /** The place an order names, or none when its anchor is not in the chain. */
  function Index(chain: seq<ProgramId>, order: Order): (k: Option<nat>)
    ensures k.Some? ==> k.value <= |chain|
  {
    match order
    case First => Some(0)
    case Before(anchor) => Place(chain, anchor)
    case After(anchor) => if Place(chain, anchor).None? then None else Some(Place(chain, anchor).value + 1)
  }

  /** p stands at the head, or directly before or after the anchor; nothing else has moved. */
  ghost predicate Placed(before: seq<ProgramId>, after: seq<ProgramId>, order: Order, p: ProgramId) {
    match order
    case First => after == [p] + before
    case Before(anchor) => exists u, v :: before == u + [anchor] + v && after == u + [p] + [anchor] + v
    case After(anchor) => exists u, v :: before == u + [anchor] + v && after == u + [anchor] + [p] + v
  }

  lemma AttachPlaces(chain: seq<ProgramId>, order: Order, p: ProgramId)
    ensures Attach(chain, order, p).Some? ==> Placed(chain, Attach(chain, order, p).value, order, p)
    ensures Attach(chain, order, p).None? <==> !order.First? && order.anchor !in chain
  {
    if !order.First? && Attach(chain, order, p).Some? {
      var i := Place(chain, order.anchor).value;
      var u, v := chain[..i], chain[i + 1..];
      assert chain == u + [order.anchor] + v;
      if order.Before? {
        assert Attach(chain, order, p).value == u + [p] + [order.anchor] + v;
      } else {
        assert Attach(chain, order, p).value == u + [order.anchor] + [p] + v;
      }
    }
  }

  /** The kernel's attach relative to another program, or ENOENT. */
  function Attach(chain: seq<ProgramId>, order: Order, p: ProgramId): Option<seq<ProgramId>> {
    var k := Index(chain, order);
    if k.None? then None else Some(chain[..k.value] + [p] + chain[k.value..])
  }

  function Remove(chain: seq<ProgramId>, p: ProgramId): (r: seq<ProgramId>)
    ensures p !in r && forall x :: x in r <==> x in chain && x != p
  {
    if chain == [] then []
    else
      var init, last := chain[..|chain| - 1], chain[|chain| - 1];
      assert chain == init + [last];
      Remove(init, p) + if last == p then [] else [last]
  }

  /** The row list after a save: the new link has the greatest ID, so it follows its equals. */
  function AddRow(rows: seq<Row>, row: Row): seq<Row> {
    match FirstAbove(rows, row.priority)
    case None => rows + [row]
    case Some(k) => rows[..k] + [row] + rows[k..]
  }

  function DropRow(rows: seq<Row>, linkId: LinkId): (r: seq<Row>)
    ensures forall x :: x in r <==> x in rows && x.linkId != linkId
  {
    if rows == [] then []
    else
      var init, last := rows[..|rows| - 1], rows[|rows| - 1];
      assert rows == init + [last];
      DropRow(init, linkId) + if last.linkId == linkId then [] else [last]
  }

  ghost predicate RowsOk(rows: seq<Row>, next: LinkId) {
    && Listed(rows) && OneRowEach(rows)
    && (forall i, j :: 0 <= i < j < |rows| ==> rows[i].linkId != rows[j].linkId)
    && forall r :: r in rows ==> r.linkId < next
  }

  lemma AddRowOk(rows: seq<Row>, row: Row)
    requires RowsOk(rows, row.linkId) && forall r :: r in rows ==> r.prog != row.prog
    ensures RowsOk(AddRow(rows, row), row.linkId + 1)
    ensures forall x :: x in AddRow(rows, row) <==> x in rows || x == row
  {
    var k := match FirstAbove(rows, row.priority) case None => |rows| case Some(k) => k;
    assert AddRow(rows, row) == rows[..k] + [row] + rows[k..] by { assert rows[..|rows|] == rows; }
    assert rows == rows[..k] + rows[k..];
    forall i | k <= i < |rows| ensures rows[i].priority > row.priority {
      assert i > k ==> Precedes(rows[k], rows[i]);
    }
    InsertListed(rows, row, k);
  }

  lemma InsertListed(rows: seq<Row>, row: Row, k: nat)
    requires RowsOk(rows, row.linkId) && k <= |rows|
    requires forall r :: r in rows ==> r.prog != row.prog
    requires forall i :: 0 <= i < k ==> rows[i].priority <= row.priority
    requires forall i :: k <= i < |rows| ==> rows[i].priority > row.priority
    ensures RowsOk(rows[..k] + [row] + rows[k..], row.linkId + 1)
  {
    var next := rows[..k] + [row] + rows[k..];
    forall i | 0 <= i < |rows| ensures rows[i].linkId < row.linkId && rows[i].prog != row.prog {
      assert rows[i] in rows;
    }
    forall i, j | 0 <= i < j < |next|
      ensures Precedes(next[i], next[j]) && next[i].prog != next[j].prog && next[i].linkId != next[j].linkId
    {
      assert next[i] == if i < k then rows[i] else if i == k then row else rows[i - 1];
      assert next[j] == if j < k then rows[j] else if j == k then row else rows[j - 1];
    }
  }

  lemma {:induction false} DropRowOk(rows: seq<Row>, linkId: LinkId, next: LinkId)
    requires RowsOk(rows, next)
    ensures RowsOk(DropRow(rows, linkId), next)
  {
    if rows != [] {
      var init, last := rows[..|rows| - 1], rows[|rows| - 1];
      assert rows == init + [last];
      DropRowOk(init, linkId, next);
      forall x | x in DropRow(init, linkId) ensures Precedes(x, last) && x.prog != last.prog && x.linkId != last.linkId {
        assert x in init;
      }
    }
  }

  lemma {:induction false} RemoveConcat(a: seq<ProgramId>, b: seq<ProgramId>, p: ProgramId)
    ensures Remove(a + b, p) == Remove(a, p) + Remove(b, p)
  {
    if b == [] {
      assert a + b == a;
    } else {
      RemoveConcat(a, b[..|b| - 1], p);
      assert (a + b)[..|a + b| - 1] == a + b[..|b| - 1];
    }
  }

  lemma {:induction false} RemoveAbsent(chain: seq<ProgramId>, p: ProgramId)
    requires p !in chain
    ensures Remove(chain, p) == chain
  {
    if chain != [] {
      RemoveAbsent(chain[..|chain| - 1], p);
    }
  }

  lemma RemoveSelf(u: seq<ProgramId>, p: ProgramId)
    requires p !in u
    ensures Remove(u + [p], p) == u
  {
    RemoveAbsent(u, p);
    assert (u + [p])[..|u|] == u;
  }

  /** Removing a program takes it out of its place and leaves everything else where it is. */
  lemma RemoveIs(u: seq<ProgramId>, p: ProgramId, v: seq<ProgramId>)
    requires p !in u && p !in v
    ensures Remove(u + [p] + v, p) == u + v
  {
    hide Remove;
    RemoveConcat(u + [p], v, p);
    RemoveSelf(u, p);
    RemoveAbsent(v, p);
  }

  /** Removing a program leaves the rest in order. */
  lemma {:induction false} RemoveOrdered(chain: seq<ProgramId>, rows: seq<Row>, p: ProgramId)
    requires ChainOrdered(chain, rows) && NoRepeats(chain)
    ensures ChainOrdered(Remove(chain, p), rows) && NoRepeats(Remove(chain, p))
  {
    hide RowsOrdered;
    if chain != [] {
      var init, last := chain[..|chain| - 1], chain[|chain| - 1];
      RemoveOrdered(init, rows, p);
      var kept := Remove(init, p);
      assert Remove(chain, p) == if last == p then kept else kept + [last];
      forall i | 0 <= i < |kept| ensures kept[i] != last && RowsOrdered(rows, kept[i], last) {
        assert kept[i] in kept && kept[i] in init;
        var j :| 0 <= j < |init| && init[j] == kept[i];
        assert chain[j] == init[j];
      }
    }
  }

  lemma FewerRows(chain: seq<ProgramId>, rows: seq<Row>, fewer: seq<Row>)
    requires ChainOrdered(chain, rows) && forall x :: x in fewer ==> x in rows
    ensures ChainOrdered(chain, fewer)
  {}

  /** links holds the row of every managed program in the chain, and perhaps more. */
  ghost predicate Covers(links: seq<Row>, rows: seq<Row>, chain: seq<ProgramId>) {
    && (forall x :: x in links ==> x in rows)
    && (forall x :: x in rows && x.prog in chain ==> x in links)
  }

  /** Inserting at k keeps the order if what precedes k and what follows it is on the right side of row. */
  lemma InsertOrdered(chain: seq<ProgramId>, rows: seq<Row>, row: Row, k: nat)
    requires ChainOrdered(chain, rows) && NoRepeats(chain) && k <= |chain| && row.prog !in chain
    requires RowsOk(rows, row.linkId) && forall r :: r in rows ==> r.linkId < row.linkId && r.prog != row.prog
    requires forall i :: 0 <= i < k ==> AtMost(rows, chain[i], row.priority)
    requires forall i :: k <= i < |chain| ==> Above(rows, chain[i], row.priority)
    ensures ChainOrdered(chain[..k] + [row.prog] + chain[k..], AddRow(rows, row))
    ensures NoRepeats(chain[..k] + [row.prog] + chain[k..])
  {
    AddRowOk(rows, row);
    var next, all := chain[..k] + [row.prog] + chain[k..], AddRow(rows, row);
    hide AddRow, RowsOk, AtMost, Above, RowsOrdered;
    forall i | 0 <= i < |chain|
      ensures chain[i] in chain && (i < k ==> AtMost(rows, chain[i], row.priority)) && (i >= k ==> Above(rows, chain[i], row.priority))
    {}
    forall i, j | 0 <= i < j < |next| ensures RowsOrdered(all, next[i], next[j]) && next[i] != next[j] {
      assert next[i] == if i < k then chain[i] else if i == k then row.prog else chain[i - 1];
      assert next[j] == if j < k then chain[j] else if j == k then row.prog else chain[j - 1];
      if i == k {
        OrderedByRow(rows, all, row, next[j]);
      } else if j == k {
        OrderedByRow(rows, all, row, next[i]);
      } else {
        OrderedStill(rows, all, row, next[i], next[j]);
      }
    }
  }

  lemma OrderedByRow(rows: seq<Row>, all: seq<Row>, row: Row, p: ProgramId)
    requires (forall x :: x in all <==> x in rows || x == row) && p != row.prog
    requires forall x :: x in rows ==> x.linkId < row.linkId && x.prog != row.prog
    ensures Above(rows, p, row.priority) ==> RowsOrdered(all, row.prog, p)
    ensures AtMost(rows, p, row.priority) ==> RowsOrdered(all, p, row.prog)
  {}

  lemma OrderedStill(rows: seq<Row>, all: seq<Row>, row: Row, p: ProgramId, q: ProgramId)
    requires (forall x :: x in all <==> x in rows || x == row) && p != row.prog && q != row.prog
    requires RowsOrdered(rows, p, q)
    ensures RowsOrdered(all, p, q)
  {}

  lemma RowUnique(rows: seq<Row>, a: Row, b: Row)
    requires OneRowEach(rows) && a in rows && b in rows && a.prog == b.prog
    ensures a == b
  {}

  /** Where in a listing a row stands is what Precedes says. */
  lemma ListingPlace(links: seq<Row>, i: nat, x: Row)
    requires Listed(links) && i < |links| && x in links && x != links[i]
    ensures Precedes(x, links[i]) <==> exists j :: 0 <= j < i && links[j] == x
    ensures Precedes(x, links[i]) <==> !Precedes(links[i], x)
  {
    var j :| 0 <= j < |links| && links[j] == x;
    if j < i {
      assert Precedes(links[j], links[i]);
    } else {
      assert Precedes(links[i], links[j]);
    }
  }

  /** The place that OrderFor names in a chain it finds, as an index. */
  lemma OrderedPlace(chain: seq<ProgramId>, rows: seq<Row>, links: seq<Row>, priority: int, k: nat)
    requires ChainOrdered(chain, rows) && NoRepeats(chain) && OneRowEach(rows)
    requires Listed(links) && Covers(links, rows, chain)
    requires Index(chain, OrderFor(links, priority)) == Some(k)
    ensures forall i :: 0 <= i < k ==> AtMost(rows, chain[i], priority)
    ensures forall i :: k <= i < |chain| ==> Above(rows, chain[i], priority)
  {
    if links != [] {
      var n := match FirstAbove(links, priority) case Some(n) => n case None => |links| - 1;
      var anchor := links[n];
      assert anchor in links;
      var at := if FirstAbove(links, priority).Some? then k else k - 1;
      forall i, a | 0 <= i < |chain| && a in rows && a.prog == chain[i]
        ensures i < k ==> a.priority <= priority
        ensures i >= k ==> priority < a.priority
      {
        if i == at {
          RowUnique(rows, a, anchor);
        } else {
          assert a in links && a != anchor;
          ListingPlace(links, n, a);
          assert i < at ==> RowsOrdered(rows, chain[i], chain[at]);
          assert i > at ==> RowsOrdered(rows, chain[at], chain[i]);
        }
      }
    }
  }

  /** Whatever the kernel accepts at the computed place keeps the managed part in listing order. */
  lemma AttachOrdered(chain: seq<ProgramId>, rows: seq<Row>, links: seq<Row>, row: Row)
    requires ChainOrdered(chain, rows) && NoRepeats(chain) && RowsOk(rows, row.linkId)
    requires Listed(links) && Covers(links, rows, chain)
    requires row.prog !in chain && forall r :: r in rows ==> r.prog != row.prog
    requires Attach(chain, OrderFor(links, row.priority), row.prog).Some?
    ensures var next := Attach(chain, OrderFor(links, row.priority), row.prog).value;
            && ChainOrdered(next, AddRow(rows, row)) && NoRepeats(next)
            && forall x :: x in next <==> x in chain || x == row.prog
  {
    var k := Index(chain, OrderFor(links, row.priority)).value;
    assert chain == chain[..k] + chain[k..];
    OrderedPlace(chain, rows, links, row.priority, k);
    InsertOrdered(chain, rows, row, k);
  }

  lemma RowsListed(rows: seq<Row>, next: LinkId)
    requires RowsOk(rows, next)
    ensures Listed(rows)
  {}

  function LiveBy(lookup: ProgramId -> Answer): ProgramId -> bool {
    (x: ProgramId) => !lookup(x).Dead?
  }

  /** The kernel finds the program that the new one is placed next to. */
  ghost predicate Anchored(chain: seq<ProgramId>, rows: seq<Row>, lookup: ProgramId -> Answer, p: ProgramId, priority: int) {
    Index(Remove(chain, p), OrderFor(Filter(rows, LiveBy(lookup)), Narrow(priority))).Some?
  }

  /** It does when every listed program that is not known to be dead is on the chain. */
  lemma AnchoredIfLive(chain: seq<ProgramId>, rows: seq<Row>, lookup: ProgramId -> Answer, p: ProgramId, priority: int)
    requires forall x :: x in rows && !lookup(x.prog).Dead? ==> x.prog in chain && x.prog != p
    ensures Anchored(chain, rows, lookup, p, priority)
  {
    var live := Filter(rows, LiveBy(lookup));
    forall i | 0 <= i < |live| ensures live[i].prog in Remove(chain, p) {
      assert live[i] in live;
    }
  }

  /** One interface and direction: the stored links, the kernel's chain and the calls that fail. Every
      method keeps Valid, so the managed part of the chain is in order after any run of attaches,
      detaches, deaths of programs and foreign changes. */
  class Hook {
    const faults: nat -> bool
    var rows: seq<Row>
    var chain: seq<ProgramId>
    var nextLink: LinkId
    var calls: nat

    constructor (faults: nat -> bool)
      ensures Valid() && rows == [] && chain == []
    {
      this.faults := faults;
      rows, chain, nextLink, calls := [], [], 1, 0;
    }

    ghost predicate Valid()
      reads this
    {
      RowsOk(rows, nextLink) && NoRepeats(chain) && ChainOrdered(chain, rows)
    }

    /** None of the next n calls fails. */
    ghost predicate Quiet(n: nat)
      reads this
    {
      forall k :: calls <= k < calls + n ==> !faults(k)
    }

    method Fault() returns (fails: bool)
      modifies this`calls
      ensures fails == faults(old(calls)) && calls == old(calls) + 1
    {
      fails := faults(calls);
      calls := calls + 1;
    }

    /** The duplicate check of attachTCX. */
    method HasLink(p: ProgramId) returns (found: bool)
      ensures found <==> exists x :: x in rows && x.prog == p
    {
      for i := 0 to |rows|
        invariant forall j :: 0 <= j < i ==> rows[j].prog != p
      {
        if rows[i].prog == p {
          return true;
        }
      }
      return false;
    }

    /** The plan of attachTCX: attach at the computed place, then save the link; a failed save detaches again. */
    method PlaceAndSave(p: ProgramId, priority: int, live: seq<Row>) returns (r: Option<LinkId>)
      requires Valid() && p !in chain && (forall x :: x in rows ==> x.prog != p)
      requires Listed(live) && Covers(live, rows, chain)
      modifies this
      ensures Valid()
      ensures r.None? ==> rows == old(rows) && chain == old(chain)
      ensures r.Some? ==> r.value == old(nextLink) && rows == AddRow(old(rows), Row(r.value, p, priority))
      ensures r.Some? ==> forall x :: x in chain <==> x in old(chain) || x == p
      ensures r.Some? ==> Placed(old(chain), chain, OrderFor(live, priority), p)
      ensures r.Some? ==> old(Quiet(2))
      ensures old(Quiet(2)) ==> (r.Some? <==> priority >= 0 && Index(old(chain), OrderFor(live, priority)).Some?)
    {
      hide ChainOrdered, Listed, Covers, AddRow, NoRepeats, OrderFor, Placed;
      var order := ComputeOrder(live, priority);
      AttachPlaces(chain, order, p);
      var fails := Fault();
      var attached := Attach(chain, order, p);
      if fails || attached.None? {
        return None;
      }
      // The save fails on the store's check that the priority is not negative.
      fails := Fault();
      if fails || priority < 0 {
        return None;
      }
      AttachOrdered(chain, rows, live, Row(nextLink, p, priority));
      AddRowOk(rows, Row(nextLink, p, priority));
      chain := attached.value;
      rows := AddRow(rows, Row(nextLink, p, priority));
      nextLink := nextLink + 1;
      return Some(nextLink - 1);
    }

    /** The start of attachTCX: a program with a link here is refused, and a stale link of its own is removed. */
    method ClearOwn(p: ProgramId) returns (ok: bool)
      requires Valid()
      modifies this
      ensures Valid() && rows == old(rows) && nextLink == old(nextLink)
      ensures ok <==> old(Quiet(2)) && forall x :: x in old(rows) ==> x.prog != p
      ensures chain == if ok then Remove(old(chain), p) else old(chain)
      ensures ok ==> calls == old(calls) + 2
    {
      hide ChainOrdered, NoRepeats;
      var fails := Fault();
      if fails {
        return false;
      }
      var found := HasLink(p);
      if found {
        return false;
      }
      fails := Fault();
      if fails {
        return false;
      }
      RemoveOrdered(chain, rows, p);
      chain := Remove(chain, p);
      return true;
    }

    /** attachTCX. It succeeds only without a failing call, and then exactly when the program has no link here, the
        stored priority is not negative and the anchor is on the chain. A lookup answers Dead only for a program
        that is gone, so none in the chain. */
    method AttachTcx(p: ProgramId, priority: int, lookup: ProgramId -> Answer) returns (r: Option<LinkId>)
      requires Valid() && forall x :: x in chain ==> !lookup(x).Dead?
      modifies this
      ensures Valid()
      ensures (exists x :: x in old(rows) && x.prog == p) ==> r.None? && chain == old(chain)
      ensures r.None? ==> rows == old(rows) && (chain == old(chain) || chain == Remove(old(chain), p))
      ensures r.Some? ==> r.value == old(nextLink) && rows == AddRow(old(rows), Row(r.value, p, Narrow(priority)))
      ensures r.Some? ==> forall x :: x in chain <==> x in old(chain) || x == p
      ensures r.Some? ==>
                Placed(Remove(old(chain), p), chain, OrderFor(Filter(old(rows), LiveBy(lookup)), Narrow(priority)), p)
      ensures (r.Some? ==> old(Quiet(4))) && (chain != old(chain) ==> old(Quiet(2)))
      ensures old(Quiet(4)) ==>
                (r.Some? <==>
                  && (forall x :: x in old(rows) ==> x.prog != p) && Narrow(priority) >= 0
                  && Anchored(old(chain), old(rows), lookup, p, priority))
    {
      hide ChainOrdered, Listed, AddRow, NoRepeats, Index, OrderFor, Narrow, Placed;
      var ok := ClearOwn(p);
      if !ok {
        return None;
      }
      var live, asked := FilterLive(rows, LiveBy(lookup));
      RowsListed(rows, nextLink);
      FilterListed(rows, LiveBy(lookup));
      r := PlaceAndSave(p, Narrow(priority), live);
    }

    /** getLink on the interface's rows. */
    method Find(linkId: LinkId) returns (found: bool, prog: ProgramId)
      requires RowsOk(rows, nextLink)
      ensures found <==> exists x :: x in rows && x.linkId == linkId
      ensures found ==> forall x :: x in rows && x.linkId == linkId ==> x.prog == prog
    {
      OneRowPerLink(rows, nextLink);
      found, prog := false, 0;
      for i := 0 to |rows|
        invariant found ==> exists x :: x in rows && x.linkId == linkId && x.prog == prog
        invariant !found ==> forall j :: 0 <= j < i ==> rows[j].linkId != linkId
      {
        if rows[i].linkId == linkId {
          found, prog := true, rows[i].prog;
        }
      }
    }

    /** Detach: the kernel link goes first, then the row. Only the named link's program leaves the chain. It
        succeeds exactly when no call fails and the link is stored. */
    method DetachTcx(linkId: LinkId) returns (ok: bool)
      requires Valid()
      modifies this
      ensures Valid()
      ensures ok ==> rows == DropRow(old(rows), linkId)
      ensures forall x :: x in old(rows) && x.linkId == linkId ==>
                chain == Remove(old(chain), x.prog) || (!ok && chain == old(chain))
      ensures !ok ==> rows == old(rows)
      ensures (forall x :: x in old(rows) ==> x.linkId != linkId) ==> !ok && chain == old(chain)
      ensures (ok ==> old(Quiet(2))) && (chain != old(chain) ==> old(Quiet(1)))
      ensures old(Quiet(2)) ==> (ok <==> exists x :: x in old(rows) && x.linkId == linkId)
    {
      hide ChainOrdered, NoRepeats, Remove, DropRow, RowsOk;
      var found, prog := Find(linkId);
      var fails := Fault();
      if fails || !found {
        return false;
      }
      RemoveOrdered(chain, rows, prog);
      chain := Remove(chain, prog);
      fails := Fault();
      if fails {
        return false;
      }
      DropRowOk(rows, linkId, nextLink);
      FewerRows(chain, rows, DropRow(rows, linkId));
      rows := DropRow(rows, linkId);
      return true;
    }

    /** A program dies without a detach: its kernel link goes, its row stays. */
    method ProgramDies(p: ProgramId)
      requires Valid()
      modifies this
      ensures Valid() && rows == old(rows) && chain == Remove(old(chain), p)
    {
      RemoveOrdered(chain, rows, p);
      chain := Remove(chain, p);
    }

    /** Somebody else attaches a program anywhere in the chain. */
    method ForeignAttach(p: ProgramId, k: nat)
      requires Valid() && k <= |chain| && p !in chain && forall x :: x in rows ==> x.prog != p
      modifies this
      ensures Valid() && rows == old(rows) && chain == old(chain)[..k] + [p] + old(chain)[k..]
    {
      ForeignOrdered(chain, rows, p, k);
      chain := chain[..k] + [p] + chain[k..];
    }
  }

  lemma OneRowPerLink(rows: seq<Row>, next: LinkId)
    requires RowsOk(rows, next)
    ensures forall a, b :: a in rows && b in rows && a.linkId == b.linkId ==> a == b
  {
    forall a, b | a in rows && b in rows && a.linkId == b.linkId ensures a == b {
      var i :| 0 <= i < |rows| && rows[i] == a;
      var j :| 0 <= j < |rows| && rows[j] == b;
    }
  }

  lemma ForeignOrdered(chain: seq<ProgramId>, rows: seq<Row>, p: ProgramId, k: nat)
    requires ChainOrdered(chain, rows) && NoRepeats(chain) && k <= |chain| && p !in chain
    requires forall x :: x in rows ==> x.prog != p
    ensures ChainOrdered(chain[..k] + [p] + chain[k..], rows) && NoRepeats(chain[..k] + [p] + chain[k..])
  {
    hide RowsOrdered;
    var next := chain[..k] + [p] + chain[k..];
    forall i, j | 0 <= i < j < |next| ensures RowsOrdered(rows, next[i], next[j]) && next[i] != next[j] {
      assert next[i] == if i < k then chain[i] else if i == k then p else chain[i - 1];
      assert next[j] == if j < k then chain[j] else if j == k then p else chain[j - 1];
      NoRows(rows, p, next[i]);
      NoRows(rows, p, next[j]);
    }
  }

  lemma NoRows(rows: seq<Row>, p: ProgramId, q: ProgramId)
    requires forall x :: x in rows ==> x.prog != p
    ensures RowsOrdered(rows, p, q) && RowsOrdered(rows, q, p)
  {}

  /** The stored priority is the requested one exactly when it fits int32. Beyond that the order asked for
      can be lost: 2^32 is stored as 0 and runs before 1. */
  lemma NarrowExact(priority: int)
    ensures Narrow(priority) == priority <==> -0x8000_0000 <= priority < 0x8000_0000
    ensures Narrow(0x1_0000_0000) == 0 < Narrow(1)
  {}
}
