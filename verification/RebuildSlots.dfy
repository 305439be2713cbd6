/** The slots of a dispatcher rebuild and the order sortRebuildSlots gives them. */
module RebuildSlots {
  import opened Chain
  import opened Options
  import opened Text

  type LinkId = nat
  type ProgramId = nat

  /** What a rebuild must carry over unchanged for an extension. */
  datatype Ext = Ext(programId: ProgramId, name: string, pinPath: string, priority: int, proceedOn: bv32, ifname: string)

  datatype Slot = Slot(ext: Ext, existing: Option<LinkId>, metadata: map<string, string>)

  /** The comparison of sortRebuildSlots: priority, then new before attached, then name. */
  predicate Less(a: Slot, b: Slot) {
    || a.ext.priority < b.ext.priority
    || (a.ext.priority == b.ext.priority && a.existing.None? && b.existing.Some?)
    || (a.ext.priority == b.ext.priority && a.existing.Some? == b.existing.Some? && NameLess(a.ext.name, b.ext.name))
  }

  predicate Le(a: Slot, b: Slot) {
    !Less(b, a)
  }

  lemma Order(a: Slot, b: Slot, c: Slot)
    ensures Le(a, a)
    ensures Less(a, b) ==> Le(a, b)
    ensures Le(a, b) && Le(b, c) ==> Le(a, c)
  {
    NameOrder(a.ext.name, b.ext.name, c.ext.name);
    NameOrder(a.ext.name, a.ext.name, a.ext.name);
  }

  ghost predicate Sorted(s: seq<Slot>) {
    forall i, j :: 0 <= i < j < |s| ==> Le(s[i], s[j])
  }

  /** One round of the inner loop: x moves left past the greater slots at the end of s. */
  function Insert(s: seq<Slot>, x: Slot): (r: seq<Slot>)
    ensures |r| == |s| + 1
  {
    if s == [] || !Less(x, s[|s| - 1]) then s + [x]
    else Insert(s[..|s| - 1], x) + [s[|s| - 1]]
  }

  function Sort(s: seq<Slot>): (r: seq<Slot>)
    ensures |r| == |s|
  {
    if s == [] then [] else Insert(Sort(s[..|s| - 1]), s[|s| - 1])
  }

  lemma InsertSnoc(s: seq<Slot>, last: Slot, x: Slot)
    ensures Insert(s + [last], x) == if Less(x, last) then Insert(s, x) + [last] else s + [last] + [x]
  {
    assert (s + [last])[..|s|] == s;
  }

  lemma SortSnoc(s: seq<Slot>, x: Slot)
    ensures Sort(s + [x]) == Insert(Sort(s), x)
  {
    assert (s + [x])[..|s|] == s;
  }

  /** The slots while x is at index j on its way left from index i. */
  ghost function Moving(before: seq<Slot>, i: nat, j: nat): seq<Slot>
    requires j <= i < |before|
  {
    before[..j] + [before[i]] + before[j..i] + before[i + 1..]
  }

  lemma MovingStep(before: seq<Slot>, i: nat, j: nat)
    requires 0 < j <= i < |before|
    ensures var now := Moving(before, i, j);
            && now[j] == before[i] && now[j - 1] == before[j - 1]
            && now[j := now[j - 1]][j - 1 := now[j]] == Moving(before, i, j - 1)
  {}

  /** The inner loop of sortRebuildSlots. */
  method InsertLast(slots: array<Slot>, i: nat)
    requires i < slots.Length
    modifies slots
    ensures slots[..] == Insert(old(slots[..i]), old(slots[i])) + old(slots[i + 1..])
  {
    hide Less, Insert, Moving;
    ghost var before, x := slots[..], slots[i];
    var j := i;
    MovingEnds(before, i);
    while j > 0
      invariant 0 <= j <= i
      invariant slots[..] == Moving(before, i, j)
      invariant Insert(before[..i], x) == Insert(before[..j], x) + before[j..i]
    {
      assert before[..j] == before[..j - 1] + [before[j - 1]];
      InsertSnoc(before[..j - 1], before[j - 1], x);
      MovingStep(before, i, j);
      assert slots[j] == slots[..][j] && slots[j - 1] == slots[..][j - 1];
      if Less(slots[j], slots[j - 1]) {
        slots[j], slots[j - 1] := slots[j - 1], slots[j];
        assert [before[j - 1]] + before[j..i] == before[j - 1..i];
      } else {
        break;
      }
      j := j - 1;
    }
    InsertEmpty(x);
    assert Insert(before[..j], x) == before[..j] + [x];
    MovingIs(before, i, j);
  }

  lemma MovingEnds(before: seq<Slot>, i: nat)
    requires i < |before|
    ensures Moving(before, i, i) == before
  {}

  lemma MovingIs(before: seq<Slot>, i: nat, j: nat)
    requires j <= i < |before|
    ensures Moving(before, i, j) == before[..j] + [before[i]] + before[j..i] + before[i + 1..]
  {}

  method SortRebuildSlots(slots: array<Slot>)
    modifies slots
    ensures slots[..] == Sort(old(slots[..]))
  {
    hide Less, Insert, Sort;
    ghost var input := slots[..];
    SortShort(input);
    if slots.Length == 0 {
      return;
    }
    var i := 1;
    while i < slots.Length
      invariant 1 <= i <= slots.Length
      invariant slots[..] == Sort(input[..i]) + input[i..]
    {
      assert slots[..i] == Sort(input[..i]) && slots[i] == input[i] && slots[i + 1..] == input[i + 1..];
      assert input[..i + 1] == input[..i] + [input[i]];
      SortSnoc(input[..i], input[i]);
      InsertLast(slots, i);
      i := i + 1;
    }
    assert input[..i] == input;
  }

  lemma InsertEmpty(x: Slot)
    ensures Insert([], x) == [x]
  {}

  lemma SortShort(s: seq<Slot>)
    ensures Sort([]) == []
    ensures s != [] ==> Sort(s[..1]) == s[..1]
  {
    assert s != [] ==> s[..1] == [s[0]] && s[..1][..0] == [];
  }

  lemma {:induction false} InsertElements(s: seq<Slot>, x: Slot)
    ensures multiset(Insert(s, x)) == multiset(s) + multiset{x}
  {
    if s != [] && Less(x, s[|s| - 1]) {
      InsertElements(s[..|s| - 1], x);
      assert s == s[..|s| - 1] + [s[|s| - 1]];
    }
  }

  lemma {:induction false} InsertSorted(s: seq<Slot>, x: Slot)
    requires Sorted(s)
    ensures Sorted(Insert(s, x))
  {
    if s != [] {
      var init, last := s[..|s| - 1], s[|s| - 1];
      if Less(x, last) {
        InsertSorted(init, x);
        InsertElements(init, x);
        Order(x, last, last);
        forall y | y in Insert(init, x) ensures Le(y, last) {
          assert y in multiset(Insert(init, x));
          assert y in init || y == x;
        }
      } else {
        forall i | 0 <= i < |s| ensures Le(s[i], x) {
          Order(s[i], last, x);
        }
      }
    }
  }

  /** Sorting permutes and sorts. */
  lemma {:induction false} SortSorts(s: seq<Slot>)
    ensures Sorted(Sort(s))
    ensures multiset(Sort(s)) == multiset(s)
  {
    if s != [] {
      var init, last := s[..|s| - 1], s[|s| - 1];
      SortSorts(init);
      InsertSorted(Sort(init), last);
      InsertElements(Sort(init), last);
      assert s == init + [last];
    }
  }

  /** The slots that satisfy a test, in order. */
  function Select(s: seq<Slot>, keep: Slot -> bool): seq<Slot> {
    if s == [] then []
    else
      var rest := Select(s[..|s| - 1], keep);
      if keep(s[|s| - 1]) then rest + [s[|s| - 1]] else rest
  }

  lemma {:induction false} SelectElements(s: seq<Slot>, keep: Slot -> bool)
    ensures forall x :: x in Select(s, keep) <==> x in s && keep(x)
  {
    if s != [] {
      SelectElements(s[..|s| - 1], keep);
      assert s == s[..|s| - 1] + [s[|s| - 1]];
    }
  }

  lemma SelectAppend(s: seq<Slot>, x: Slot, keep: Slot -> bool)
    ensures Select(s + [x], keep) == if keep(x) then Select(s, keep) + [x] else Select(s, keep)
  {
    assert (s + [x])[..|s|] == s;
  }

  lemma {:induction false} SelectInsert(s: seq<Slot>, x: Slot, keep: Slot -> bool)
    requires Sorted(s)
    ensures Select(Insert(s, x), keep) == if keep(x) then Insert(Select(s, keep), x) else Select(s, keep)
  {
    hide Less, Select;
    if s == [] {
      InsertEmpty(x);
      SelectAppend([], x, keep);
      SelectEmpty(keep);
    } else {
      var init, last := s[..|s| - 1], s[|s| - 1];
      assert s == init + [last];
      InsertSnoc(init, last, x);
      SelectAppend(init, last, keep);
      if Less(x, last) {
        SelectInsert(init, x, keep);
        SelectAppend(Insert(init, x), last, keep);
        InsertSnoc(Select(init, keep), last, x);
      } else {
        SelectAppend(s, x, keep);
        SelectElements(s, keep);
        Order(last, last, last);
        InsertAtEnd(Select(s, keep), last, x);
      }
    }
  }

  lemma SelectEmpty(keep: Slot -> bool)
    ensures Select([], keep) == []
  {}

  /** Nothing at the end of s is greater than x when all of s lies below some bound that is not. */
  lemma InsertAtEnd(s: seq<Slot>, bound: Slot, x: Slot)
    requires forall y :: y in s ==> Le(y, bound)
    requires Le(bound, x)
    ensures Insert(s, x) == s + [x]
  {
    if s != [] {
      Order(s[|s| - 1], bound, x);
    }
  }

  /** Selecting commutes with sorting. With keep testing for equal keys this is stability: slots that
      compare equal keep their order. */
  lemma {:induction false} SelectSort(s: seq<Slot>, keep: Slot -> bool)
    ensures Select(Sort(s), keep) == Sort(Select(s, keep))
  {
    hide Less, Select, Insert;
    if s == [] {
      SelectEmpty(keep);
    } else {
      var init, last := s[..|s| - 1], s[|s| - 1];
      assert s == init + [last];
      SelectSort(init, keep);
      SortSorts(init);
      SelectInsert(Sort(init), last, keep);
      SelectAppend(init, last, keep);
      SortSnoc(Select(init, keep), last);
    }
  }

  /** A list in order is left alone. */
  lemma {:induction false} SortOfSorted(s: seq<Slot>)
    requires Sorted(s)
    ensures Sort(s) == s
  {
    hide Less, Insert, Sort;
    SortShort(s);
    if s != [] {
      var init, last := s[..|s| - 1], s[|s| - 1];
      assert s == init + [last];
      SortOfSorted(init);
      SortSnoc(init, last);
      Order(last, last, last);
      InsertAtEnd(init, last, last);
    }
  }

  predicate SameKey(a: Slot, b: Slot) {
    !Less(a, b) && !Less(b, a)
  }

  /** Slots that compare equal come out in the order they went in. */
  lemma SortStable(s: seq<Slot>, k: Slot)
    ensures Select(Sort(s), x => SameKey(x, k)) == Select(s, x => SameKey(x, k))
  {
    var keep := x => SameKey(x, k);
    SelectSort(s, keep);
    SelectElements(s, keep);
    var t := Select(s, keep);
    forall i, j | 0 <= i < j < |t| ensures Le(t[i], t[j]) {
      assert t[i] in t && t[j] in t;
      Order(t[i], k, t[j]);
    }
    SortOfSorted(t);
  }

  predicate AllAttached(s: seq<Slot>) {
    forall i :: 0 <= i < |s| ==> s[i].existing.Some?
  }

  /** The number of slots with a strictly lower priority. */
  function CountBelow(s: seq<Slot>, priority: int): (n: nat)
    ensures n <= |s|
  {
    if s == [] then 0
    else CountBelow(s[..|s| - 1], priority) + if s[|s| - 1].ext.priority < priority then 1 else 0
  }

  lemma {:induction false} InsertNew(s: seq<Slot>, x: Slot)
    requires Sorted(s) && AllAttached(s) && x.existing.None?
    ensures var k := CountBelow(s, x.ext.priority);
            Insert(s, x) == s[..k] + [x] + s[k..]
  {
    if s != [] {
      var init, last := s[..|s| - 1], s[|s| - 1];
      var k := CountBelow(s, x.ext.priority);
      if Less(x, last) {
        InsertNew(init, x);
        assert init[..k] == s[..k];
        assert init[k..] + [last] == s[k..];
      } else {
        forall i | 0 <= i < |s| ensures s[i].ext.priority < x.ext.priority {
          Order(s[i], last, x);
        }
        CountAll(s, x.ext.priority);
        assert s[..k] == s && s[k..] == [];
      }
    }
  }

  lemma {:induction false} CountAll(s: seq<Slot>, priority: int)
    requires forall i :: 0 <= i < |s| ==> s[i].ext.priority < priority
    ensures CountBelow(s, priority) == |s|
  {
    if s != [] {
      CountAll(s[..|s| - 1], priority);
    }
  }

  lemma {:induction false} CountInsert(s: seq<Slot>, x: Slot, priority: int)
    ensures CountBelow(Insert(s, x), priority) == CountBelow(s + [x], priority)
  {
    assert (s + [x])[..|s|] == s;
    if s != [] && Less(x, s[|s| - 1]) {
      var init, last := s[..|s| - 1], s[|s| - 1];
      CountInsert(init, x, priority);
      assert (init + [x])[..|init|] == init;
      assert Insert(s, x)[..|s|] == Insert(init, x);
    }
  }

  lemma {:induction false} CountSort(s: seq<Slot>, priority: int)
    ensures CountBelow(Sort(s), priority) == CountBelow(s, priority)
  {
    if s != [] {
      var init, last := s[..|s| - 1], s[|s| - 1];
      CountSort(init, priority);
      CountInsert(Sort(init), last, priority);
      assert (Sort(init) + [last])[..|init|] == Sort(init);
    }
  }

  /** An attach rebuild puts the new slot right after the members of strictly lower priority and
      leaves the members, sorted, around it. */
  lemma NewSlotIndex(members: seq<Slot>, x: Slot)
    requires AllAttached(members) && x.existing.None?
    ensures var k := CountBelow(members, x.ext.priority);
            Sort(members + [x]) == Sort(members)[..k] + [x] + Sort(members)[k..]
  {
    assert (members + [x])[..|members|] == members;
    SortSorts(members);
    var sorted := Sort(members);
    forall i | 0 <= i < |sorted| ensures sorted[i].existing.Some? {
      assert sorted[i] in multiset(sorted);
      assert sorted[i] in members;
    }
    InsertNew(sorted, x);
    CountSort(members, x.ext.priority);
  }

  /** Detaching two members one after the other ends in the same chain in either order. */
  lemma DetachTwoCommutes(s: seq<Slot>, p: Slot -> bool, q: Slot -> bool)
    ensures Sort(Select(Sort(Select(s, p)), q)) == Sort(Select(Sort(Select(s, q)), p))
  {
    DetachTwice(s, p, q);
    DetachTwice(s, q, p);
    SelectSelect(s, p, q);
  }

  lemma DetachTwice(s: seq<Slot>, p: Slot -> bool, q: Slot -> bool)
    ensures Sort(Select(Sort(Select(s, p)), q)) == Sort(Select(Select(s, p), q))
  {
    SelectSort(Select(s, p), q);
    SortSorts(Select(Select(s, p), q));
    SortOfSorted(Sort(Select(Select(s, p), q)));
  }

  lemma {:induction false} SelectSelect(s: seq<Slot>, p: Slot -> bool, q: Slot -> bool)
    ensures Select(Select(s, p), q) == Select(Select(s, q), p)
  {
    hide Select;
    SelectEmpty(p);
    SelectEmpty(q);
    if s != [] {
      var init, last := s[..|s| - 1], s[|s| - 1];
      assert s == init + [last];
      SelectSelect(init, p, q);
      SelectAppend(init, last, p);
      SelectAppend(init, last, q);
      if p(last) { SelectAppend(Select(init, p), last, q); }
      if q(last) { SelectAppend(Select(init, q), last, p); }
    }
  }
}
