/** The map list of a CSI volume: its parsing and the comparison with the pins found at a target. */
module MapNames {

  import opened Text

  /** The white space that Go's strings.TrimSpace trims. */
  predicate IsSpace(c: char) {
    || '\U{9}' <= c <= '\U{D}' || c == ' ' || c == '\U{85}' || c == '\U{A0}' || c == '\U{1680}'
    || '\U{2000}' <= c <= '\U{200A}' || c == '\U{2028}' || c == '\U{2029}' || c == '\U{202F}'
    || c == '\U{205F}' || c == '\U{3000}'
  }

  /** The code points that Unicode gives the property White_Space. */
  lemma SpaceCodes(c: char)
    ensures IsSpace(c) <==>
            || c as int in {9, 10, 11, 12, 13, 32, 133, 160, 5760, 8232, 8233, 8239, 8287, 12288}
            || 8192 <= c as int <= 8202
  {}

  function Trim(s: string): (t: string)
    ensures t == [] || (!IsSpace(t[0]) && !IsSpace(t[|t| - 1]))
    ensures s != [] && !IsSpace(s[0]) && !IsSpace(s[|s| - 1]) ==> t == s
  {
    if s == [] then s
    else if IsSpace(s[0]) then Trim(s[1..])
    else if IsSpace(s[|s| - 1]) then Trim(s[..|s| - 1])
    else s
  }

  ghost predicate Spaces(s: string) {
    forall i :: 0 <= i < |s| ==> IsSpace(s[i])
  }

  /** Trimming takes white space off the ends and nothing else. */
  lemma {:induction false} TrimIs(s: string) returns (front: string, back: string)
    ensures s == front + Trim(s) + back && Spaces(front) && Spaces(back)
  {
    hide IsSpace;
    front, back := [], [];
    if s != [] && IsSpace(s[0]) {
      var rest;
      rest, back := TrimIs(s[1..]);
      front := [s[0]] + rest;
      assert s == [s[0]] + s[1..];
    } else if s != [] && IsSpace(s[|s| - 1]) {
      var rest;
      front, rest := TrimIs(s[..|s| - 1]);
      back := rest + [s[|s| - 1]];
      assert s == s[..|s| - 1] + [s[|s| - 1]];
    } else {
      assert s == front + s + back;
    }
  }

  /** The trimmed, non-empty fields, each at its first occurrence. */
  function Kept(fields: seq<string>): seq<string> {
    if fields == [] then []
    else
      var before, name := Kept(fields[..|fields| - 1]), Trim(fields[|fields| - 1]);
      if name == [] || name in before then before else before + [name]
  }

  function Names(attribute: string): seq<string> {
    Kept(Split(attribute, ','))
  }

  method ParseMapNames(attribute: string) returns (names: seq<string>)
    ensures names == Names(attribute)
  {
    var fields := Split(attribute, ',');
    names := [];
    var seen: set<string> := {};
    for i := 0 to |fields|
      invariant names == Kept(fields[..i])
      invariant forall x :: x in seen <==> x in names
    {
      assert fields[..i + 1][..i] == fields[..i];
      var name := Trim(fields[i]);
      if name != [] && name !in seen {
        seen := seen + {name};
        names := names + [name];
      }
    }
    assert fields[..|fields|] == fields;
  }

  ghost predicate Distinct(names: seq<string>) {
    forall i, j :: 0 <= i < j < |names| ==> names[i] != names[j]
  }

  ghost predicate Appears(fields: seq<string>, name: string) {
    exists k :: 0 <= k < |fields| && Trim(fields[k]) == name
  }

  /** Field k is the first whose trimmed text is this name. */
  ghost predicate FirstAt(fields: seq<string>, k: nat, name: string) {
    k < |fields| && Trim(fields[k]) == name && !Appears(fields[..k], name)
  }

  /** Parsing keeps exactly the non-empty names, each once. */
  lemma {:induction false} KeptAre(fields: seq<string>)
    ensures Distinct(Kept(fields)) && [] !in Kept(fields)
    ensures forall x :: x in Kept(fields) <==> x != [] && Appears(fields, x)
  {
    if fields != [] {
      var init := fields[..|fields| - 1];
      KeptAre(init);
      assert fields == init + [fields[|fields| - 1]];
      assert forall x :: Appears(fields, x) <==> Appears(init, x) || x == Trim(fields[|fields| - 1]);
    }
  }

  /** The names kept are in the order of their first occurrences. */
  lemma {:induction false} KeptInOrder(fields: seq<string>, i: nat, j: nat, k: nat, l: nat)
    requires i < j < |Kept(fields)| && FirstAt(fields, k, Kept(fields)[i]) && FirstAt(fields, l, Kept(fields)[j])
    ensures k < l
  {
    var init, n := fields[..|fields| - 1], |fields| - 1;
    KeptAre(init);
    KeptAre(fields);
    var first := Kept(fields)[i];
    assert first in Kept(init);
    assert init[..k] == fields[..k];
    if l < n {
      assert init[..l] == fields[..l];
      assert Appears(init, Kept(fields)[j]);
      KeptInOrder(init, i, j, k, l);
    }
  }

  /** A name that parsing leaves alone. */
  ghost predicate Clean(name: string) {
    name != [] && ',' !in name && !IsSpace(name[0]) && !IsSpace(name[|name| - 1])
  }

  lemma {:induction false} KeptClean(names: seq<string>)
    requires Distinct(names) && forall x :: x in names ==> Clean(x)
    ensures Kept(names) == names
  {
    if names != [] {
      KeptClean(names[..|names| - 1]);
      assert Clean(names[|names| - 1]);
      assert names == names[..|names| - 1] + [names[|names| - 1]];
    }
  }

  /** Writing a list of clean, distinct names with commas and parsing it again gives the list back. */
  lemma NamesOfJoin(names: seq<string>)
    requires names != [] && Distinct(names) && forall x :: x in names ==> Clean(x)
    ensures Names(Join(names, ',')) == names
  {
    SplitOfJoin(names, ',');
    KeptClean(names);
  }

  // The comparison of two lists.

  predicate AtMost(a: string, b: string) {
    !NameLess(b, a)
  }

  lemma AtMostOrder(a: string, b: string, c: string)
    ensures AtMost(a, b) || AtMost(b, a)
    ensures AtMost(a, b) && AtMost(b, a) ==> a == b
    ensures AtMost(a, b) && AtMost(b, c) ==> AtMost(a, c)
  {
    NameOrder(a, b, c);
  }

  ghost predicate Ascending(s: seq<string>) {
    forall i, j :: 0 <= i < j < |s| ==> AtMost(s[i], s[j])
  }

  lemma InsertAscending(r: seq<string>, k: nat, x: string)
    requires Ascending(r) && k <= |r|
    requires k > 0 ==> AtMost(r[k - 1], x)
    requires forall j :: k <= j < |r| ==> AtMost(x, r[j])
    ensures Ascending(r[..k] + [x] + r[k..])
  {
    hide AtMost;
    forall j | 0 <= j < k ensures AtMost(r[j], x) {
      AtMostOrder(r[j], r[k - 1], x);
    }
    var s := r[..k] + [x] + r[k..];
    forall i, j | 0 <= i < j < |s| ensures AtMost(s[i], s[j]) {
      assert s[i] == if i < k then r[i] else if i == k then x else r[i - 1];
      assert s[j] == if j < k then r[j] else if j == k then x else r[j - 1];
    }
  }

  method Insert(r: seq<string>, x: string) returns (s: seq<string>)
    requires Ascending(r)
    ensures Ascending(s) && multiset(s) == multiset(r) + multiset{x}
  {
    hide AtMost, Ascending;
    var k := |r|;
    while k > 0 && !AtMost(r[k - 1], x)
      invariant 0 <= k <= |r|
      invariant forall j :: k <= j < |r| ==> AtMost(x, r[j])
    {
      AtMostOrder(x, r[k - 1], x);
      k := k - 1;
    }
    InsertAscending(r, k, x);
    assert r == r[..k] + r[k..];
    s := r[..k] + [x] + r[k..];
  }

  /** Go's sort.Strings. */
  method SortStrings(s: seq<string>) returns (r: seq<string>)
    ensures Ascending(r) && multiset(r) == multiset(s)
  {
    r := [];
    for n := 0 to |s|
      invariant Ascending(r) && multiset(r) == multiset(s[..n])
    {
      hide Ascending;
      r := Insert(r, s[n]);
      assert s[..n + 1] == s[..n] + [s[n]];
    }
    assert s[..|s|] == s;
  }

  lemma AscendingHead(a: seq<string>, b: seq<string>)
    requires Ascending(a) && Ascending(b) && a != [] && b != [] && a[0] in b && b[0] in a
    ensures a[0] == b[0]
  {
    hide AtMost;
    AtMostOrder(a[0], b[0], a[0]);
  }

  lemma SameTails(a: seq<string>, b: seq<string>)
    requires a != [] && b != [] && a[0] == b[0] && multiset(a) == multiset(b)
    ensures multiset(a[1..]) == multiset(b[1..])
  {
    assert a == [a[0]] + a[1..] && b == [a[0]] + b[1..];
    assert multiset(a[1..]) == multiset(a) - multiset{a[0]} && multiset(b[1..]) == multiset(b) - multiset{a[0]};
  }

  lemma {:induction false} AscendingUnique(a: seq<string>, b: seq<string>)
    requires Ascending(a) && Ascending(b) && multiset(a) == multiset(b)
    ensures a == b
  {
    hide AtMost;
    assert |a| == |multiset(a)| == |b|;
    if a != [] {
      assert a[0] in multiset(b) && b[0] in multiset(a);
      AscendingHead(a, b);
      SameTails(a, b);
      AscendingUnique(a[1..], b[1..]);
      assert a == [a[0]] + a[1..] && b == [b[0]] + b[1..];
    }
  }

  /** equalStringSets compares with multiplicity; on lists without repeats that is equality of sets. */
  method EqualStringSets(a: seq<string>, b: seq<string>) returns (same: bool)
    ensures same <==> multiset(a) == multiset(b)
  {
    if |a| != |b| {
      assert |multiset(a)| == |a| && |multiset(b)| == |b|;
      return false;
    }
    var x := SortStrings(a);
    var y := SortStrings(b);
    assert |x| == |multiset(x)| == |a| && |y| == |multiset(y)| == |b|;
    if multiset(x) == multiset(y) {
      AscendingUnique(x, y);
    }
    for i := 0 to |x|
      invariant x[..i] == y[..i]
    {
      if x[i] != y[i] { return false; }
    }
    assert x == x[..|x|] && y == y[..|y|];
    return true;
  }

  function Elements(names: seq<string>): set<string> {
    set x | x in names
  }

  lemma {:induction false} DistinctCount(a: seq<string>, x: string)
    requires Distinct(a)
    ensures multiset(a)[x] == if x in a then 1 else 0
  {
    if a != [] {
      DistinctCount(a[1..], x);
      assert a == [a[0]] + a[1..];
    }
  }

  lemma DistinctSameSet(a: seq<string>, b: seq<string>)
    requires Distinct(a) && Distinct(b)
    ensures multiset(a) == multiset(b) <==> Elements(a) == Elements(b)
  {
    forall x ensures multiset(a)[x] == (if x in Elements(a) then 1 else 0) && multiset(b)[x] == (if x in Elements(b) then 1 else 0) {
      DistinctCount(a, x);
      DistinctCount(b, x);
    }
    if Elements(a) == Elements(b) {
      assert forall x :: multiset(a)[x] == multiset(b)[x];
    } else if multiset(a) == multiset(b) {
      assert forall x :: x in Elements(a) <==> x in Elements(b);
    }
  }
}
