/** The correlation of store, kernel and bpffs into one row per program and per link. Every loop over a map
    takes its keys in an arbitrary order, as Go does. */
module Inspect {

  import opened Options

  type Id = nat
  type KernelLinkId = nat

  /** A stored program; `owner` is the program whose maps it shares, the rest of the record is opaque. */
  datatype Program = Program(owner: Option<Id>, record: string)

  /** A stored link. */
  datatype Link = Link(id: nat, program: Id, kernelLink: Option<KernelLinkId>, pin: Option<string>)

  /** What the three sources list. */
  datatype Sources = Sources(
    store: map<Id, Program>, kernel: map<Id, string>, pins: map<Id, string>, mapDirs: set<Id>,
    links: seq<Link>, kernelLinks: map<KernelLinkId, string>, linkPins: map<KernelLinkId, string>, paths: set<string>)

  datatype Presence = Presence(inStore: bool, inKernel: bool, inFs: bool)

  datatype LinkRow = LinkRow(managed: Option<Link>, kernel: Option<string>, pin: string, presence: Presence)

  datatype ProgramView = ProgramView(
    id: Id, managed: Option<Program>, kernel: Option<string>, pin: string, mapsPresent: bool, links: seq<LinkRow>,
    mapUsedBy: seq<Id>, presence: Presence)

  datatype Observation = Observation(programs: seq<ProgramView>, links: seq<LinkRow>)

  function Lookup<K, V>(m: map<K, V>, k: K): Option<V> {
    if k in m then Some(m[k]) else None
  }

  function Or(text: Option<string>): string {
    if text.Some? then text.value else ""
  }

  // Sorting by a numeric key.

  ghost predicate Ascending<T(!new)>(s: seq<T>, key: T -> nat) {
    forall i, j :: 0 <= i < j < |s| ==> key(s[i]) <= key(s[j])
  }

  ghost predicate StrictlyAscending<T(!new)>(s: seq<T>, key: T -> nat) {
    forall i, j :: 0 <= i < j < |s| ==> key(s[i]) < key(s[j])
  }

  lemma InsertAscending<T(!new)>(s: seq<T>, k: nat, x: T, key: T -> nat)
    requires Ascending(s, key) && k <= |s|
    requires k > 0 ==> key(s[k - 1]) <= key(x)
    requires forall j :: k <= j < |s| ==> key(x) <= key(s[j])
    ensures Ascending(s[..k] + [x] + s[k..], key)
  {
    var r := s[..k] + [x] + s[k..];
    forall i, j | 0 <= i < j < |r| ensures key(r[i]) <= key(r[j]) {
      assert r[i] == if i < k then s[i] else if i == k then x else s[i - 1];
      assert r[j] == if j < k then s[j] else if j == k then x else s[j - 1];
    }
  }

  method Insert<T(!new)>(s: seq<T>, x: T, key: T -> nat) returns (r: seq<T>)
    requires Ascending(s, key)
    ensures Ascending(r, key) && multiset(r) == multiset(s) + multiset{x}
  {
    hide Ascending;
    var k := |s|;
    while k > 0 && key(x) < key(s[k - 1])
      invariant 0 <= k <= |s|
      invariant forall j :: k <= j < |s| ==> key(x) <= key(s[j])
    {
      k := k - 1;
    }
    InsertAscending(s, k, x, key);
    assert s == s[..k] + s[k..];
    r := s[..k] + [x] + s[k..];
  }

  /** slices.SortFunc: some permutation in ascending order. */
  method SortBy<T(!new)>(s: seq<T>, key: T -> nat) returns (r: seq<T>)
    ensures Ascending(r, key) && multiset(r) == multiset(s)
  {
    r := [];
    for n := 0 to |s|
      invariant Ascending(r, key) && multiset(r) == multiset(s[..n])
    {
      hide Ascending;
      r := Insert(r, s[n], key);
      assert s[..n + 1] == s[..n] + [s[n]];
    }
    assert s[..|s|] == s;
  }

  // Map sets.

  function SetOf(id: Id, p: Program): Id {
    if p.owner.Some? then p.owner.value else id
  }

  /** The stored programs of one map set. */
  ghost function Members(store: map<Id, Program>, mapSet: Id): set<Id> {
    set id | id in store && SetOf(id, store[id]) == mapSet
  }

  /** The list holds each of these ids once, in ascending order. */
  ghost predicate Lists(s: seq<Id>, ids: set<Id>) {
    StrictlyAscending(s, (x: Id) => x) && forall x :: x in s <==> x in ids
  }

  /** Each id of the set once, in some order. */
  ghost predicate Gathers(s: seq<Id>, ids: set<Id>) {
    forall x :: multiset(s)[x] == if x in ids then 1 else 0
  }

  lemma Repeated<T>(s: seq<T>, i: nat, j: nat)
    requires i < j < |s|
    ensures s[i] == s[j] ==> multiset(s)[s[i]] >= 2
  {
    assert s == s[..i] + [s[i]] + s[i + 1..j] + [s[j]] + s[j + 1..];
  }

  lemma SortedLists(s: seq<Id>, ids: set<Id>)
    requires Ascending(s, (x: Id) => x) && Gathers(s, ids)
    ensures Lists(s, ids)
  {
    forall i, j | 0 <= i < j < |s| ensures s[i] < s[j] {
      Repeated(s, i, j);
    }
    assert forall x :: x in s <==> x in multiset(s);
  }

  /** A list is determined by its ids. */
  lemma {:induction false} ListsUnique(a: seq<Id>, b: seq<Id>, ids: set<Id>)
    requires Lists(a, ids) && Lists(b, ids)
    ensures a == b
  {
    assert (a != [] ==> a[0] in b) && (b != [] ==> b[0] in a);
    if a != [] && b != [] {
      assert a[0] == b[0];
      assert a == [a[0]] + a[1..] && b == [b[0]] + b[1..];
      ListsUnique(a[1..], b[1..], ids - {a[0]});
    }
  }

  /** The groups gathered so far, over the ids in `done`. */
  ghost predicate Grouped(bySet: map<Id, seq<Id>>, store: map<Id, Program>, done: set<Id>) {
    && (forall id :: id in done && id in store ==> SetOf(id, store[id]) in bySet)
    && (forall s :: s in bySet ==> Gathers(bySet[s], Members(store, s) * done))
  }

  method GroupBySet(store: map<Id, Program>) returns (bySet: map<Id, seq<Id>>)
    ensures Grouped(bySet, store, store.Keys)
  {
    bySet := map[];
    var todo := store.Keys;
    while todo != {}
      invariant todo <= store.Keys && Grouped(bySet, store, store.Keys - todo)
    {
      var id :| id in todo;
      var s := SetOf(id, store[id]);
      ghost var before := bySet;
      bySet := bySet[s := (if s in bySet then bySet[s] else []) + [id]];
      todo := todo - {id};
      GroupGrows(before, store, store.Keys - todo - {id}, id);
      assert store.Keys - todo - {id} + {id} == store.Keys - todo;
    }
  }

  lemma GroupGrows(bySet: map<Id, seq<Id>>, store: map<Id, Program>, done: set<Id>, id: Id)
    requires done <= store.Keys && id in store && id !in done && Grouped(bySet, store, done)
    ensures var s := SetOf(id, store[id]);
            Grouped(bySet[s := (if s in bySet then bySet[s] else []) + [id]], store, done + {id})
  {
    var s := SetOf(id, store[id]);
    var grown := bySet[s := (if s in bySet then bySet[s] else []) + [id]];
    forall t | t in grown ensures Gathers(grown[t], Members(store, t) * (done + {id})) {
      if t != s {
        assert Members(store, t) * (done + {id}) == Members(store, t) * done;
      } else if s in bySet {
        assert forall x :: multiset(grown[s])[x] == multiset(bySet[s])[x] + if x == id then 1 else 0;
      } else {
        assert Members(store, s) * done == {};
      }
    }
  }

  /** MapSetMembers: for every stored program, the sorted ids of the stored programs of its map set. */
  method MapSetMembers(store: map<Id, Program>) returns (out: map<Id, seq<Id>>)
    ensures out.Keys == store.Keys
    ensures forall id :: id in store ==> Lists(out[id], Members(store, SetOf(id, store[id])))
  {
    var bySet := GroupBySet(store);
    var todo := bySet.Keys;
    var sorted: map<Id, seq<Id>> := map[];
    while todo != {}
      invariant todo <= bySet.Keys && sorted.Keys == bySet.Keys - todo
      invariant forall s :: s in sorted ==> Lists(sorted[s], Members(store, s))
    {
      var s :| s in todo;
      var members := SortBy(bySet[s], (x: Id) => x);
      assert Members(store, s) * store.Keys == Members(store, s);
      SortedLists(members, Members(store, s));
      sorted := sorted[s := members];
      todo := todo - {s};
    }
    out := map id | id in store :: sorted[SetOf(id, store[id])];
  }

  /** The lists partition the stored programs: each is in its own, and two are equal or have nothing in common. */
  lemma MembersPartition(store: map<Id, Program>, out: map<Id, seq<Id>>, a: Id, b: Id)
    requires out.Keys == store.Keys && a in store && b in store
    requires forall id :: id in store ==> Lists(out[id], Members(store, SetOf(id, store[id])))
    ensures a in out[a]
    ensures b in out[a] <==> out[a] == out[b]
    ensures out[a] == out[b] || forall x :: !(x in out[a] && x in out[b])
  {
    var setA, setB := SetOf(a, store[a]), SetOf(b, store[b]);
    assert a in Members(store, setA) && b in Members(store, setB);
    if setA == setB {
      ListsUnique(out[a], out[b], Members(store, setA));
    }
  }

  /** A program shares its list with its owner, if that owns its maps itself, and with the owner's other users. */
  lemma SharersListed(store: map<Id, Program>, out: map<Id, seq<Id>>, a: Id, b: Id)
    requires out.Keys == store.Keys && a in store && b in store
    requires forall id :: id in store ==> Lists(out[id], Members(store, SetOf(id, store[id])))
    ensures store[a].owner == Some(b) && store[b].owner.None? ==> a in out[b] && out[a] == out[b]
    ensures store[a].owner.Some? && store[a].owner == store[b].owner ==> out[a] == out[b]
    ensures store[a].owner.None? && store[b].owner.None? && a != b ==> b !in out[a]
  {
    MembersPartition(store, out, a, b);
    assert a in Members(store, SetOf(a, store[a]));
  }

  // Link rows.

  function StoreLinkRow(src: Sources, link: Link): LinkRow {
    var kernel := if link.kernelLink.Some? then Lookup(src.kernelLinks, link.kernelLink.value) else None;
    var walked := Or(if link.kernelLink.Some? then Lookup(src.linkPins, link.kernelLink.value) else None);
    var pinned := link.kernelLink.Some? && link.kernelLink.value in src.linkPins;
    if walked == "" && link.pin.Some? && link.pin.value in src.paths
    then LinkRow(Some(link), kernel, link.pin.value, Presence(true, kernel.Some?, true))
    else LinkRow(Some(link), kernel, walked, Presence(true, kernel.Some?, pinned))
  }

  function KernelLinkRow(src: Sources, id: KernelLinkId): LinkRow
    requires id in src.kernelLinks
  {
    LinkRow(None, Some(src.kernelLinks[id]), Or(Lookup(src.linkPins, id)), Presence(false, true, id in src.linkPins))
  }

  /** A pin of this kernel link was found, at this path. */
  ghost predicate PinnedAt(src: Sources, id: Option<KernelLinkId>, path: string) {
    id.Some? && id.value in src.linkPins && src.linkPins[id.value] == path
  }

  /** A stored link's row. It is in the kernel iff the kernel lists the recorded link, and shows that; in bpffs iff
      the walk found a pin of it or the recorded path exists; and it shows the pin found, else the recorded path. */
  lemma StoreLinkRowIs(src: Sources, link: Link)
    ensures var row := StoreLinkRow(src, link);
            && row.managed == Some(link) && row.presence.inStore && (row.kernel.Some? <==> row.presence.inKernel)
            && (row.presence.inKernel <==> exists k :: link.kernelLink == Some(k) && k in src.kernelLinks)
            && (forall k :: link.kernelLink == Some(k) && k in src.kernelLinks ==> row.kernel == Some(src.kernelLinks[k]))
            && (row.presence.inFs <==>
                || (exists path :: PinnedAt(src, link.kernelLink, path))
                || (exists path :: link.pin == Some(path) && path in src.paths))
            && (forall path :: PinnedAt(src, link.kernelLink, path) && path != "" ==> row.pin == path)
            && (forall path :: link.pin == Some(path) && path in src.paths ==>
                  row.pin == path || PinnedAt(src, link.kernelLink, row.pin))
            && (row.pin != "" ==> PinnedAt(src, link.kernelLink, row.pin) || (link.pin == Some(row.pin) && row.pin in src.paths))
  {
    assert link.kernelLink.Some? ==> link.kernelLink == Some(link.kernelLink.value);
    assert link.pin.Some? ==> link.pin == Some(link.pin.value);
    assert link.kernelLink.Some? && link.kernelLink.value in src.linkPins ==>
        PinnedAt(src, link.kernelLink, src.linkPins[link.kernelLink.value]);
  }

  /** The row of a kernel link that no stored link claims. */
  lemma KernelLinkRowIs(src: Sources, id: KernelLinkId)
    requires id in src.kernelLinks
    ensures var row := KernelLinkRow(src, id);
            && row.managed.None? && row.kernel == Some(src.kernelLinks[id]) && row.presence.inKernel && !row.presence.inStore
            && (row.presence.inFs <==> exists path :: PinnedAt(src, Some(id), path))
            && (forall path :: PinnedAt(src, Some(id), path) ==> row.pin == path)
            && (row.pin != "" ==> PinnedAt(src, Some(id), row.pin))
  {
    assert id in src.linkPins ==> PinnedAt(src, Some(id), src.linkPins[id]);
  }

  /** A stored link names this kernel link. */
  ghost predicate Claimed(links: seq<Link>, id: KernelLinkId) {
    exists link :: link in links && link.kernelLink == Some(id)
  }

  /** A row for each stored link, in the store's order. */
  function StoreLinkRows(src: Sources, links: seq<Link>): seq<LinkRow> {
    if links == [] then [] else StoreLinkRows(src, links[..|links| - 1]) + [StoreLinkRow(src, links[|links| - 1])]
  }

  /** A row for each of these kernel links. */
  function KernelLinkRows(src: Sources, ids: seq<KernelLinkId>): seq<LinkRow>
    requires forall id :: id in ids ==> id in src.kernelLinks
  {
    if ids == [] then []
    else KernelLinkRows(src, ids[..|ids| - 1]) + [KernelLinkRow(src, ids[|ids| - 1])]
  }

  /** Each kernel link that no stored link names, once. */
  ghost predicate Unclaimed(src: Sources, ids: seq<KernelLinkId>) {
    && Gathers(ids, set id | id in src.kernelLinks && !Claimed(src.links, id))
    && forall id :: id in ids ==> id in src.kernelLinks
  }

  /** Store links first, then the kernel links they do not claim. */
  method LinkRows(src: Sources) returns (rows: seq<LinkRow>)
    ensures exists extra :: Unclaimed(src, extra) && rows == StoreLinkRows(src, src.links) + KernelLinkRows(src, extra)
  {
    rows := [];
    var seen: set<KernelLinkId> := {};
    for i := 0 to |src.links|
      invariant rows == StoreLinkRows(src, src.links[..i])
      invariant forall id :: id in seen <==> Claimed(src.links[..i], id)
    {
      var link := src.links[i];
      assert src.links[..i + 1] == src.links[..i] + [link];
      if link.kernelLink.Some? { seen := seen + {link.kernelLink.value}; }
      assert forall id: KernelLinkId :: Claimed(src.links[..i + 1], id) <==> Claimed(src.links[..i], id) || link.kernelLink == Some(id);
      rows := rows + [StoreLinkRow(src, link)];
    }
    assert src.links[..|src.links|] == src.links;
    var more, extra := UnclaimedRows(src, seen);
    rows := rows + more;
    assert (set id | id in src.kernelLinks && id !in seen) == set id | id in src.kernelLinks && !Claimed(src.links, id);
  }

  method UnclaimedRows(src: Sources, seen: set<KernelLinkId>) returns (rows: seq<LinkRow>, ghost extra: seq<KernelLinkId>)
    ensures forall id :: id in extra ==> id in src.kernelLinks
    ensures Gathers(extra, set id | id in src.kernelLinks && id !in seen)
    ensures rows == KernelLinkRows(src, extra)
  {
    rows, extra := [], [];
    var todo := src.kernelLinks.Keys;
    while todo != {}
      invariant todo <= src.kernelLinks.Keys && forall id :: id in extra ==> id in src.kernelLinks
      invariant Gathers(extra, set id | id in src.kernelLinks && id !in seen && id !in todo)
      invariant rows == KernelLinkRows(src, extra)
    {
      var id :| id in todo;
      todo := todo - {id};
      if id !in seen {
        assert (extra + [id])[..|extra|] == extra;
        rows, extra := rows + [KernelLinkRow(src, id)], extra + [id];
      }
    }
  }

  // Program rows.

  type UsedBy = map<Id, seq<Id>>

  function StoreView(src: Sources, used: UsedBy, id: Id): ProgramView
    requires id in src.store && id in used
  {
    ProgramView(id, Some(src.store[id]), Lookup(src.kernel, id), Or(Lookup(src.pins, id)), id in src.mapDirs, [], used[id],
                Presence(true, id in src.kernel, id in src.pins))
  }

  function KernelView(src: Sources, id: Id): ProgramView
    requires id in src.kernel
  {
    ProgramView(id, None, Some(src.kernel[id]), Or(Lookup(src.pins, id)), false, [], [], Presence(false, true, id in src.pins))
  }

  function PinView(src: Sources, id: Id): ProgramView
    requires id in src.pins
  {
    ProgramView(id, None, None, src.pins[id], false, [], [], Presence(false, false, true))
  }

  /** The row's flags are membership in the sources, and its parts are what those sources hold. */
  ghost predicate IsView(src: Sources, v: ProgramView) {
    && v.presence == Presence(v.id in src.store, v.id in src.kernel, v.id in src.pins)
    && v.managed == Lookup(src.store, v.id) && v.kernel == Lookup(src.kernel, v.id) && v.pin == Or(Lookup(src.pins, v.id))
    && (v.mapsPresent <==> v.id in src.store && v.id in src.mapDirs)
    && (v.id in src.store ==> Lists(v.mapUsedBy, Members(src.store, SetOf(v.id, src.store[v.id]))))
    && (v.id !in src.store ==> v.mapUsedBy == [])
  }

  ghost predicate HasRow(rows: seq<ProgramView>, id: Id) {
    exists v :: v in rows && v.id == id
  }

  ghost predicate DistinctRows(rows: seq<ProgramView>) {
    forall i, j :: 0 <= i < j < |rows| ==> rows[i].id != rows[j].id
  }

  /** One row for each of these ids, without its links yet. */
  ghost predicate RowsFor(src: Sources, rows: seq<ProgramView>, ids: set<Id>) {
    && DistinctRows(rows) && (forall id :: id in ids <==> HasRow(rows, id))
    && forall v :: v in rows ==> IsView(src, v) && v.links == []
  }

  lemma NoRows(src: Sources)
    ensures RowsFor(src, [], {})
  {}

  lemma StoreViewIs(src: Sources, used: UsedBy, id: Id)
    requires id in src.store && id in used && Lists(used[id], Members(src.store, SetOf(id, src.store[id])))
    ensures IsView(src, StoreView(src, used, id))
  {}

  lemma OtherViewsAre(src: Sources, id: Id)
    ensures id in src.kernel && id !in src.store ==> IsView(src, KernelView(src, id))
    ensures id in src.pins && id !in src.kernel && id !in src.store ==> IsView(src, PinView(src, id))
  {}

  lemma RowsForGrows(src: Sources, rows: seq<ProgramView>, ids: set<Id>, v: ProgramView)
    requires RowsFor(src, rows, ids) && v.id !in ids && IsView(src, v) && v.links == []
    ensures RowsFor(src, rows + [v], ids + {v.id})
  {
    forall id ensures HasRow(rows + [v], id) <==> HasRow(rows, id) || id == v.id {
      assert v in rows + [v];
      if HasRow(rows, id) {
        var kept :| kept in rows && kept.id == id;
        assert kept in rows + [v];
      }
    }
    forall i | 0 <= i < |rows| ensures rows[i].id != v.id {
      assert HasRow(rows, rows[i].id);
    }
  }

  method StoreViews(src: Sources, used: UsedBy) returns (rows: seq<ProgramView>)
    requires used.Keys == src.store.Keys
    requires forall id :: id in src.store ==> Lists(used[id], Members(src.store, SetOf(id, src.store[id])))
    ensures RowsFor(src, rows, src.store.Keys)
  {
    hide RowsFor, IsView, Lists, Members;
    rows := [];
    NoRows(src);
    var todo := src.store.Keys;
    assert src.store.Keys - todo == {};
    while todo != {}
      invariant todo <= src.store.Keys && RowsFor(src, rows, src.store.Keys - todo)
    {
      var id :| id in todo;
      StoreViewIs(src, used, id);
      RowsForGrows(src, rows, src.store.Keys - todo, StoreView(src, used, id));
      assert src.store.Keys - todo + {id} == src.store.Keys - (todo - {id});
      rows := rows + [StoreView(src, used, id)];
      todo := todo - {id};
    }
    assert src.store.Keys - todo == src.store.Keys;
  }

  method AddKernelViews(src: Sources, before: seq<ProgramView>, seen: set<Id>) returns (rows: seq<ProgramView>)
    requires RowsFor(src, before, seen) && seen == src.store.Keys
    ensures RowsFor(src, rows, seen + src.kernel.Keys)
  {
    hide RowsFor, IsView;
    rows := before;
    var todo := src.kernel.Keys;
    assert seen + (src.kernel.Keys - todo) == seen;
    while todo != {}
      invariant todo <= src.kernel.Keys && RowsFor(src, rows, seen + (src.kernel.Keys - todo))
    {
      var id :| id in todo;
      ghost var done := seen + (src.kernel.Keys - todo);
      todo := todo - {id};
      if id !in seen {
        OtherViewsAre(src, id);
        RowsForGrows(src, rows, done, KernelView(src, id));
        rows := rows + [KernelView(src, id)];
        assert done + {id} == seen + (src.kernel.Keys - todo);
      } else {
        assert done == seen + (src.kernel.Keys - todo);
      }
    }
    assert src.kernel.Keys - todo == src.kernel.Keys;
  }

  method AddPinViews(src: Sources, before: seq<ProgramView>, seen: set<Id>) returns (rows: seq<ProgramView>)
    requires RowsFor(src, before, seen) && seen == src.store.Keys + src.kernel.Keys
    ensures RowsFor(src, rows, seen + src.pins.Keys)
  {
    hide RowsFor, IsView;
    rows := before;
    var todo := src.pins.Keys;
    assert seen + (src.pins.Keys - todo) == seen;
    while todo != {}
      invariant todo <= src.pins.Keys && RowsFor(src, rows, seen + (src.pins.Keys - todo))
    {
      var id :| id in todo;
      ghost var done := seen + (src.pins.Keys - todo);
      todo := todo - {id};
      if id !in seen {
        OtherViewsAre(src, id);
        RowsForGrows(src, rows, done, PinView(src, id));
        rows := rows + [PinView(src, id)];
        assert done + {id} == seen + (src.pins.Keys - todo);
      } else {
        assert done == seen + (src.pins.Keys - todo);
      }
    }
    assert src.pins.Keys - todo == src.pins.Keys;
  }

  // Correlation.

  /** The managed rows of one program's links, in order. */
  function OwnLinks(links: seq<LinkRow>, id: Id): seq<LinkRow> {
    if links == [] then []
    else
      var before, row := OwnLinks(links[..|links| - 1], id), links[|links| - 1];
      if row.managed.Some? && row.managed.value.program == id then before + [row] else before
  }

  lemma {:induction false} OwnLinksAre(links: seq<LinkRow>, id: Id, row: LinkRow)
    ensures multiset(OwnLinks(links, id))[row] ==
            if row.managed.Some? && row.managed.value.program == id then multiset(links)[row] else 0
  {
    if links != [] {
      OwnLinksAre(links[..|links| - 1], id, row);
      assert links == links[..|links| - 1] + [links[|links| - 1]];
    }
  }

  /** Each program's position. */
  method IndexPrograms(rows: seq<ProgramView>) returns (index: map<Id, nat>)
    requires DistinctRows(rows)
    ensures forall id :: id in index ==> index[id] < |rows| && rows[index[id]].id == id
    ensures forall i :: 0 <= i < |rows| ==> rows[i].id in index
  {
    index := map[];
    for i := 0 to |rows|
      invariant forall id :: id in index ==> index[id] < i && rows[index[id]].id == id
      invariant forall k :: 0 <= k < i ==> rows[k].id in index
    {
      index := index[rows[i].id := i];
    }
  }

  method Correlate(rows: seq<ProgramView>, links: seq<LinkRow>) returns (out: seq<ProgramView>)
    requires DistinctRows(rows)
    requires forall v :: v in rows ==> v.links == []
    ensures |out| == |rows|
    ensures forall i :: 0 <= i < |rows| ==> out[i] == rows[i].(links := OwnLinks(links, rows[i].id))
  {
    var index := IndexPrograms(rows);
    out := rows;
    for n := 0 to |links|
      invariant |out| == |rows|
      invariant forall i :: 0 <= i < |rows| ==> out[i] == rows[i].(links := OwnLinks(links[..n], rows[i].id))
    {
      assert links[..n + 1][..n] == links[..n] && links[..n + 1][n] == links[n];
      if links[n].managed.Some? && links[n].managed.value.program in index {
        var at := index[links[n].managed.value.program];
        out := out[at := out[at].(links := out[at].links + [links[n]])];
      }
    }
    assert links[..|links|] == links;
  }

  // The snapshot.

  ghost function AllIds(src: Sources): set<Id> {
    src.store.Keys + src.kernel.Keys + src.pins.Keys
  }

  /** The row of a program, with its links. */
  ghost predicate Complete(src: Sources, v: ProgramView) {
    IsView(src, v) && v.links == OwnLinks(StoreLinkRows(src, src.links), v.id)
  }

  ghost predicate RowsOf(rows: seq<ProgramView>, ids: set<Id>) {
    forall id :: id in ids <==> HasRow(rows, id)
  }

  /** One row per program of the three sources, in ascending order of id, with that program's links. */
  ghost predicate ObservesPrograms(src: Sources, rows: seq<ProgramView>) {
    StrictlyAscending(rows, ProgramKey) && RowsOf(rows, AllIds(src)) && forall v :: v in rows ==> Complete(src, v)
  }

  /** The stored links and the kernel links that none of them claims, in ascending order of link id. */
  ghost predicate ObservesLinks(src: Sources, rows: seq<LinkRow>) {
    && Ascending(rows, LinkKey)
    && exists extra :: Unclaimed(src, extra) &&
                       multiset(rows) == multiset(StoreLinkRows(src, src.links) + KernelLinkRows(src, extra))
  }

  function LinkKey(row: LinkRow): nat {
    if row.managed.Some? then row.managed.value.id else 0
  }

  /** Where link ids start at 1, the links only the kernel has come first, then the stored ones by id. */
  lemma KernelOnlyFirst(src: Sources, rows: seq<LinkRow>, i: nat, j: nat)
    requires ObservesLinks(src, rows) && i < j < |rows| && rows[i].managed.Some?
    requires forall link :: link in src.links ==> link.id >= 1
    ensures rows[j].managed.Some? && rows[i].managed.value.id <= rows[j].managed.value.id
  {
    var extra :| Unclaimed(src, extra) &&
                 multiset(rows) == multiset(StoreLinkRows(src, src.links) + KernelLinkRows(src, extra));
    assert rows[i] in multiset(rows);
    StoredAt(src, src.links, rows[i]);
    NoneStored(src, extra, rows[i]);
    assert LinkKey(rows[i]) <= LinkKey(rows[j]);
  }

  lemma {:induction false} StoredAt(src: Sources, links: seq<Link>, row: LinkRow)
    ensures row in StoreLinkRows(src, links) ==> row.managed.Some? && row.managed.value in links
  {
    if links != [] {
      StoredAt(src, links[..|links| - 1], row);
      assert StoreLinkRow(src, links[|links| - 1]).managed == Some(links[|links| - 1]);
    }
  }

  lemma {:induction false} NoneStored(src: Sources, ids: seq<KernelLinkId>, row: LinkRow)
    requires forall id :: id in ids ==> id in src.kernelLinks
    ensures row in KernelLinkRows(src, ids) ==> row.managed.None?
  {
    if ids != [] { NoneStored(src, ids[..|ids| - 1], row); }
  }

  function ProgramKey(v: ProgramView): nat {
    v.id
  }

  /** Sorting rows of distinct programs puts them in strictly ascending order. */
  lemma SortedRows(rows: seq<ProgramView>, sorted: seq<ProgramView>)
    requires DistinctRows(rows) && Ascending(sorted, ProgramKey) && multiset(sorted) == multiset(rows)
    ensures StrictlyAscending(sorted, ProgramKey)
    ensures forall v :: v in sorted <==> v in rows
  {
    assert forall v :: v in sorted <==> v in multiset(sorted);
    assert forall v :: v in rows <==> v in multiset(rows);
    forall i, j | 0 <= i < j < |sorted| ensures sorted[i].id < sorted[j].id {
      Repeated(sorted, i, j);
      OnceEach(rows, sorted[i]);
      assert sorted[i] in rows && sorted[j] in rows;
    }
  }

  lemma {:induction false} OnceEach(rows: seq<ProgramView>, v: ProgramView)
    requires DistinctRows(rows)
    ensures multiset(rows)[v] <= 1
  {
    if rows != [] {
      OnceEach(rows[1..], v);
      assert rows == [rows[0]] + rows[1..];
    }
  }

  lemma {:induction false} OwnSkipsKernelRows(src: Sources, links: seq<LinkRow>, extra: seq<KernelLinkId>, id: Id)
    requires forall k :: k in extra ==> k in src.kernelLinks
    ensures OwnLinks(links + KernelLinkRows(src, extra), id) == OwnLinks(links, id)
  {
    if extra == [] {
      assert links + KernelLinkRows(src, extra) == links;
    } else {
      var init := extra[..|extra| - 1];
      OwnSkipsKernelRows(src, links, init, id);
      var all := links + KernelLinkRows(src, extra);
      assert all[..|all| - 1] == links + KernelLinkRows(src, init);
    }
  }

  lemma CorrelatedRows(
    src: Sources, rows: seq<ProgramView>, ids: set<Id>, out: seq<ProgramView>, links: seq<LinkRow>, extra: seq<KernelLinkId>)
    requires RowsFor(src, rows, ids) && (forall k :: k in extra ==> k in src.kernelLinks)
    requires links == StoreLinkRows(src, src.links) + KernelLinkRows(src, extra) && |out| == |rows|
    requires forall i :: 0 <= i < |rows| ==> out[i] == rows[i].(links := OwnLinks(links, rows[i].id))
    ensures DistinctRows(out) && RowsOf(out, ids) && forall v :: v in out ==> Complete(src, v)
  {
    forall i | 0 <= i < |out| ensures Complete(src, out[i]) {
      assert rows[i] in rows;
      OwnSkipsKernelRows(src, StoreLinkRows(src, src.links), extra, rows[i].id);
    }
    forall id ensures HasRow(out, id) <==> HasRow(rows, id) {
      if HasRow(rows, id) {
        var i :| 0 <= i < |rows| && rows[i].id == id;
        assert out[i] in out;
      }
      if HasRow(out, id) {
        var i :| 0 <= i < |out| && out[i].id == id;
        assert rows[i] in rows;
      }
    }
  }

  /** Snapshot: the program and the link rows. */
  method Snapshot(src: Sources) returns (obs: Observation)
    ensures ObservesPrograms(src, obs.programs) && ObservesLinks(src, obs.links)
  {
    hide Lists, Members, IsView, OwnLinks, StoreLinkRows, KernelLinkRows, RowsFor, Gathers;
    var used := MapSetMembers(src.store);
    var rows := StoreViews(src, used);
    rows := AddKernelViews(src, rows, src.store.Keys);
    rows := AddPinViews(src, rows, src.store.Keys + src.kernel.Keys);
    var links := LinkRows(src);
    ghost var extra :| Unclaimed(src, extra) && links == StoreLinkRows(src, src.links) + KernelLinkRows(src, extra);
    RowsForParts(src, rows, AllIds(src));
    var correlated := Correlate(rows, links);
    CorrelatedRows(src, rows, AllIds(src), correlated, links, extra);
    var programs := SortBy(correlated, ProgramKey);
    SortedRows(correlated, programs);
    SameRows(correlated, programs, AllIds(src));
    var sortedLinks := SortBy(links, LinkKey);
    obs := Observation(programs, sortedLinks);
  }

  lemma RowsForParts(src: Sources, rows: seq<ProgramView>, ids: set<Id>)
    requires RowsFor(src, rows, ids)
    ensures DistinctRows(rows) && forall v :: v in rows ==> v.links == []
  {}

  lemma SameRows(a: seq<ProgramView>, b: seq<ProgramView>, ids: set<Id>)
    requires RowsOf(a, ids) && forall v :: v in b <==> v in a
    ensures RowsOf(b, ids)
  {
    forall id ensures HasRow(b, id) <==> HasRow(a, id) {}
  }

  // What a reader may conclude.

  lemma LeastFirst(a: seq<ProgramView>, ids: set<Id>)
    requires StrictlyAscending(a, ProgramKey) && RowsOf(a, ids)
    ensures a == [] <==> ids == {}
    ensures a != [] ==> a[0].id in ids && forall id :: id in ids ==> a[0].id <= id
  {
    if a != [] {
      assert a[0] in a && HasRow(a, a[0].id);
      forall id | id in ids ensures a[0].id <= id {
        assert HasRow(a, id);
      }
    }
    assert forall id :: id in ids ==> HasRow(a, id);
  }

  /** The program rows do not depend on the order in which any map was walked. */
  lemma {:induction false} ProgramsUnique(src: Sources, a: seq<ProgramView>, b: seq<ProgramView>, ids: set<Id>)
    requires StrictlyAscending(a, ProgramKey) && StrictlyAscending(b, ProgramKey) && RowsOf(a, ids) && RowsOf(b, ids)
    requires (forall v :: v in a ==> Complete(src, v)) && forall v :: v in b ==> Complete(src, v)
    ensures a == b
  {
    hide StrictlyAscending, RowsOf, Complete;
    LeastFirst(a, ids);
    LeastFirst(b, ids);
    if a != [] {
      CompleteUnique(src, a[0], b[0]);
      TailRows(a, ids);
      TailRows(b, ids);
      ProgramsUnique(src, a[1..], b[1..], ids - {a[0].id});
      assert a == [a[0]] + a[1..] && b == [b[0]] + b[1..];
    }
  }

  lemma CompleteUnique(src: Sources, a: ProgramView, b: ProgramView)
    requires a.id == b.id && Complete(src, a) && Complete(src, b)
    ensures a == b
  {
    if a.id in src.store {
      ListsUnique(a.mapUsedBy, b.mapUsedBy, Members(src.store, SetOf(a.id, src.store[a.id])));
    }
  }

  lemma TailRows(a: seq<ProgramView>, ids: set<Id>)
    requires a != [] && StrictlyAscending(a, ProgramKey) && RowsOf(a, ids)
    ensures StrictlyAscending(a[1..], ProgramKey) && RowsOf(a[1..], ids - {a[0].id})
  {
    forall id ensures HasRow(a[1..], id) <==> HasRow(a, id) && id != a[0].id {
      if HasRow(a, id) && id != a[0].id {
        var i :| 0 <= i < |a| && a[i].id == id;
        assert a[i] == a[1..][i - 1];
      }
    }
  }

  /** A stored link's row is under the row of the program it names, as often as the store lists it, and under
      no other. */
  lemma LinkUnderOwner(src: Sources, programs: seq<ProgramView>, v: ProgramView, link: Link)
    requires ObservesPrograms(src, programs) && v in programs
    ensures multiset(v.links)[StoreLinkRow(src, link)] == if link.program == v.id then multiset(src.links)[link] else 0
  {
    hide IsView;
    OwnLinksAre(StoreLinkRows(src, src.links), v.id, StoreLinkRow(src, link));
    RowsCount(src, src.links, link);
  }

  lemma {:induction false} RowsCount(src: Sources, links: seq<Link>, link: Link)
    ensures multiset(StoreLinkRows(src, links))[StoreLinkRow(src, link)] == multiset(links)[link]
  {
    hide StoreLinkRow;
    if links != [] {
      RowsCount(src, links[..|links| - 1], link);
      assert links == links[..|links| - 1] + [links[|links| - 1]];
      RowOfOne(src, links[|links| - 1], link);
    }
  }

  lemma RowOfOne(src: Sources, a: Link, b: Link)
    ensures StoreLinkRow(src, a) == StoreLinkRow(src, b) ==> a == b
  {
    assert StoreLinkRow(src, a).managed == Some(a) && StoreLinkRow(src, b).managed == Some(b);
  }
}
