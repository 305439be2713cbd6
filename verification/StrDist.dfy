/** The two-row edit distance of strdist, against minimal sequences of single-rune edits. */
module StrDist {

  type Runes = seq<char>

  /** y is x with one rune inserted, deleted or replaced, anywhere. */
  ghost predicate Edit(x: Runes, y: Runes) {
    exists u: Runes, s: Runes, t: Runes, v: Runes :: EditAt(x, y, u, s, t, v)
  }

  /** Between u and v, s gives way to t. */
  ghost predicate EditAt(x: Runes, y: Runes, u: Runes, s: Runes, t: Runes, v: Runes) {
    |s| <= 1 && |t| <= 1 && s != t && x == u + s + v && y == u + t + v
  }

  /** path leads from a to b, one edit at a time; it takes |path| - 1 edits. */
  ghost predicate Path(path: seq<Runes>, a: Runes, b: Runes) {
    && |path| > 0 && path[0] == a && path[|path| - 1] == b
    && forall i :: 0 <= i < |path| - 1 ==> Edit(path[i], path[i + 1])
  }

  /** d is the least number of edits that turn a into b. */
  ghost predicate Minimal(d: nat, a: Runes, b: Runes) {
    (exists path :: Path(path, a, b) && |path| - 1 == d) && (forall path :: Path(path, a, b) ==> d <= |path| - 1)
  }

  function Min(x: nat, y: nat): nat {
    if x <= y then x else y
  }

  /** The recurrence behind the rows. */
  function Distance(a: Runes, b: Runes): nat
    decreases |a| + |b|
  {
    if a == [] then |b|
    else if b == [] then |a|
    else
      var a', b' := a[..|a| - 1], b[..|b| - 1];
      var cost := if a[|a| - 1] == b[|b| - 1] then 0 else 1;
      Min(Distance(a', b) + 1, Min(Distance(a, b') + 1, Distance(a', b') + cost))
  }

  /** The distance between two prefixes, a cell of the full table. */
  function Cell(a: Runes, b: Runes, i: nat, j: nat): nat
    requires i <= |a| && j <= |b|
  {
    Distance(a[..i], b[..j])
  }

  lemma CellStep(a: Runes, b: Runes, i: nat, j: nat)
    requires i <= |a| && j <= |b|
    ensures i == 0 ==> Cell(a, b, i, j) == j
    ensures j == 0 ==> Cell(a, b, i, j) == i
    ensures i > 0 && j > 0 ==>
              Cell(a, b, i, j) ==
              Min(Cell(a, b, i - 1, j) + 1,
                  Min(Cell(a, b, i, j - 1) + 1, Cell(a, b, i - 1, j - 1) + if a[i - 1] == b[j - 1] then 0 else 1))
  {
    if i > 0 && j > 0 {
      assert a[..i][..i - 1] == a[..i - 1] && b[..j][..j - 1] == b[..j - 1];
    }
  }

  ghost predicate IsRow(row: seq<nat>, a: Runes, b: Runes, i: nat)
    requires i <= |a|
  {
    |row| == |b| + 1 && forall j :: 0 <= j <= |b| ==> row[j] == Cell(a, b, i, j)
  }

  /** The inner loop: row i from row i - 1. */
  method FillRow(a: Runes, b: Runes, i: nat, prev: array<nat>, curr: array<nat>)
    requires 1 <= i <= |a| && prev != curr && curr.Length == |b| + 1
    requires IsRow(prev[..], a, b, i - 1)
    modifies curr
    ensures IsRow(curr[..], a, b, i)
  {
    hide Cell;
    CellStep(a, b, i, 0);
    curr[0] := i;
    for j := 1 to |b| + 1
      invariant forall k :: 0 <= k < j ==> curr[k] == Cell(a, b, i, k)
    {
      CellStep(a, b, i, j);
      var cost := if a[i - 1] == b[j - 1] then 0 else 1;
      assert prev[..][j] == Cell(a, b, i - 1, j) && prev[..][j - 1] == Cell(a, b, i - 1, j - 1);
      curr[j] := Min(prev[j] + 1, Min(curr[j - 1] + 1, prev[j - 1] + cost));
    }
  }

  method Levenshtein(a: Runes, b: Runes) returns (d: nat)
    ensures d == Distance(a, b)
    ensures Minimal(d, a, b)
  {
    hide Minimal, Cell;
    DistanceMinimal(a, b);
    var m, n := |a|, |b|;
    if m == 0 {
      return n;
    }
    if n == 0 {
      return m;
    }
    var prev, curr := new nat[n + 1], new nat[n + 1];
    for j := 0 to n + 1
      invariant forall k :: 0 <= k < j ==> prev[k] == Cell(a, b, 0, k)
    {
      CellStep(a, b, 0, j);
      prev[j] := j;
    }
    for i := 1 to m + 1
      invariant prev != curr && prev.Length == curr.Length == n + 1
      invariant fresh(prev) && fresh(curr)
      invariant IsRow(prev[..], a, b, i - 1)
    {
      FillRow(a, b, i, prev, curr);
      prev, curr := curr, prev;
    }
    assert prev[..][n] == Cell(a, b, m, n);
    CellAll(a, b);
    return prev[n];
  }

  lemma CellAll(a: Runes, b: Runes)
    ensures Cell(a, b, |a|, |b|) == Distance(a, b)
  {
    assert a[..|a|] == a && b[..|b|] == b;
  }

  // Reached by a path.

  lemma Snoc(x: Runes, c: char)
    ensures (x + [c])[..|x|] == x
  {}

  lemma Regroup(u: Runes, s: Runes, v: Runes, c: char)
    ensures u + s + v + [c] == u + s + (v + [c])
  {}

  lemma EditSnoc(x: Runes, y: Runes, c: char)
    requires Edit(x, y)
    ensures Edit(x + [c], y + [c])
  {
    var u, s, t, v :| EditAt(x, y, u, s, t, v);
    Regroup(u, s, v, c);
    Regroup(u, t, v, c);
    assert EditAt(x + [c], y + [c], u, s, t, v + [c]);
  }

  lemma LastEdits(x: Runes, c: char, d: char)
    ensures Edit(x, x + [c]) && Edit(x + [c], x)
    ensures c != d ==> Edit(x + [c], x + [d])
  {
    assert x == x + [] + [] && x + [c] == x + [c] + [] && x + [d] == x + [d] + [];
    assert EditAt(x, x + [c], x, [], [c], []) && EditAt(x + [c], x, x, [c], [], []);
    assert c != d ==> EditAt(x + [c], x + [d], x, [c], [d], []);
  }

  ghost function Shift(path: seq<Runes>, c: char): seq<Runes> {
    seq(|path|, i requires 0 <= i < |path| => path[i] + [c])
  }

  lemma ShiftPath(path: seq<Runes>, a: Runes, b: Runes, c: char)
    requires Path(path, a, b)
    ensures Path(Shift(path, c), a + [c], b + [c])
  {
    forall i | 0 <= i < |path| - 1 ensures Edit(Shift(path, c)[i], Shift(path, c)[i + 1]) {
      EditSnoc(path[i], path[i + 1], c);
    }
  }

  lemma PathAppend(path: seq<Runes>, a: Runes, b: Runes, b': Runes)
    requires Path(path, a, b) && Edit(b, b')
    ensures Path(path + [b'], a, b')
  {}

  lemma PathPrepend(path: seq<Runes>, a': Runes, a: Runes, b: Runes)
    requires Path(path, a, b) && Edit(a', a)
    ensures Path([a'] + path, a', b)
  {
    var long := [a'] + path;
    forall i | 0 <= i < |long| - 1 ensures Edit(long[i], long[i + 1]) {
      assert i > 0 ==> long[i] == path[i - 1];
    }
  }

  lemma {:induction false} Reached(a: Runes, b: Runes) returns (path: seq<Runes>)
    ensures Path(path, a, b) && |path| - 1 == Distance(a, b)
    decreases |a| + |b|
  {
    if a == [] && b == [] {
      path := [a];
    } else if a == [] {
      var b', d := b[..|b| - 1], b[|b| - 1];
      path := Reached(a, b');
      LastEdits(b', d, d);
      assert b == b' + [d];
      PathAppend(path, a, b', b);
      path := path + [b];
    } else {
      var a', c := a[..|a| - 1], a[|a| - 1];
      assert a == a' + [c];
      if b == [] {
        path := Reached(a', b);
        LastEdits(a', c, c);
        PathPrepend(path, a, a', b);
        path := [a] + path;
      } else {
        path := ReachedBoth(a, b);
      }
    }
  }

  lemma {:induction false} ReachedBoth(a: Runes, b: Runes) returns (path: seq<Runes>)
    requires a != [] && b != []
    ensures Path(path, a, b) && |path| - 1 == Distance(a, b)
    decreases |a| + |b|, 0
  {
    var a', c := a[..|a| - 1], a[|a| - 1];
    var b', d := b[..|b| - 1], b[|b| - 1];
    assert a == a' + [c] && b == b' + [d];
    LastEdits(a', c, d);
    LastEdits(b', c, d);
    LastEdits(b', d, d);
    if Distance(a, b) == Distance(a', b) + 1 {
      path := Reached(a', b);
      PathPrepend(path, a, a', b);
      path := [a] + path;
    } else if Distance(a, b) == Distance(a, b') + 1 {
      path := Reached(a, b');
      PathAppend(path, a, b', b);
      path := path + [b];
    } else {
      path := Reached(a', b');
      ShiftPath(path, a', b', c);
      path := Shift(path, c);
      if c != d {
        PathAppend(path, a, b' + [c], b);
        path := path + [b];
      }
    }
  }

  // No path is shorter.

  lemma DistanceSnoc(x: Runes, c: char, b: Runes)
    ensures b == [] ==> Distance(x + [c], b) == |x| + 1 == Distance(x, b) + 1
    ensures b != [] ==>
              var b', d := b[..|b| - 1], b[|b| - 1];
              Distance(x + [c], b) ==
              Min(Distance(x, b) + 1, Min(Distance(x + [c], b') + 1, Distance(x, b') + if c == d then 0 else 1))
  {
    Snoc(x, c);
    assert (x + [c])[|x + [c]| - 1] == c && x + [c] != [];
  }

  lemma {:induction false} DropLast(x: Runes, c: char, b: Runes)
    ensures Distance(x, b) <= Distance(x + [c], b) + 1
    decreases |b|
  {
    DistanceSnoc(x, c, b);
    if b != [] {
      var b' := b[..|b| - 1];
      DropLast(x, c, b');
      DistanceTarget(x, b);
    }
  }

  /** One more rune in the target costs at most one more. */
  lemma DistanceTarget(x: Runes, b: Runes)
    requires b != []
    ensures Distance(x, b) <= Distance(x, b[..|b| - 1]) + 1
  {}

  lemma {:induction false} ReplaceLast(x: Runes, c: char, d: char, b: Runes)
    ensures Distance(x + [c], b) <= Distance(x + [d], b) + 1
    decreases |b|
  {
    DistanceSnoc(x, c, b);
    DistanceSnoc(x, d, b);
    if b != [] {
      ReplaceLast(x, c, d, b[..|b| - 1]);
    }
  }

  /** An edit before the tail v changes the distance by at most one. */
  lemma {:induction false} EditDistance(u: Runes, s: Runes, t: Runes, v: Runes, b: Runes)
    requires |s| <= 1 && |t| <= 1
    ensures Distance(u + s + v, b) <= Distance(u + t + v, b) + 1
    decreases |v|, |b|
  {
    if v == [] {
      assert u + s + v == u + s && u + t + v == u + t;
      EditLast(u, s, t, b);
    } else {
      var v', e := v[..|v| - 1], v[|v| - 1];
      var x, y := u + s + v', u + t + v';
      assert u + s + v == x + [e] && u + t + v == y + [e];
      DistanceSnoc(x, e, b);
      DistanceSnoc(y, e, b);
      EditDistance(u, s, t, v', b);
      if b != [] {
        EditDistance(u, s, t, v', b[..|b| - 1]);
        EditDistance(u, s, t, v, b[..|b| - 1]);
      }
    }
  }

  lemma EditLast(u: Runes, s: Runes, t: Runes, b: Runes)
    requires |s| <= 1 && |t| <= 1
    ensures Distance(u + s, b) <= Distance(u + t, b) + 1
  {
    hide Distance;
    assert u + [] == u;
    if s == [] && |t| == 1 {
      DropLast(u, t[0], b);
      assert t == [t[0]];
    } else if |s| == 1 && t == [] {
      DistanceSnoc(u, s[0], b);
      assert s == [s[0]];
    } else if |s| == 1 && |t| == 1 {
      ReplaceLast(u, s[0], t[0], b);
      assert s == [s[0]] && t == [t[0]];
    }
  }

  lemma {:induction false} DistanceSelf(a: Runes)
    ensures Distance(a, a) == 0
  {
    if a != [] {
      DistanceSelf(a[..|a| - 1]);
    }
  }

  lemma {:induction false} PathBound(path: seq<Runes>, a: Runes, b: Runes)
    requires Path(path, a, b)
    ensures Distance(a, b) <= |path| - 1
    decreases |path|
  {
    if |path| == 1 {
      DistanceSelf(a);
    } else {
      var rest := path[1..];
      forall i | 0 <= i < |rest| - 1 ensures Edit(rest[i], rest[i + 1]) {
        assert Edit(path[i + 1], path[i + 1 + 1]);
      }
      PathBound(rest, path[1], b);
      assert Edit(path[0], path[0 + 1]);
      var u, s, t, v :| EditAt(a, path[1], u, s, t, v);
      EditDistance(u, s, t, v, b);
    }
  }

  /** The recurrence is the least number of edits. */
  lemma DistanceMinimal(a: Runes, b: Runes)
    ensures Minimal(Distance(a, b), a, b)
  {
    var path := Reached(a, b);
    assert Path(path, a, b) && |path| - 1 == Distance(a, b);
    forall p | Path(p, a, b) ensures Distance(a, b) <= |p| - 1 {
      PathBound(p, a, b);
    }
  }

  // It is a metric.

  lemma EditSymmetric(x: Runes, y: Runes)
    requires Edit(x, y)
    ensures Edit(y, x)
  {
    var u, s, t, v :| EditAt(x, y, u, s, t, v);
    assert EditAt(y, x, u, t, s, v);
  }

  ghost function Reverse(path: seq<Runes>): seq<Runes> {
    seq(|path|, i requires 0 <= i < |path| => path[|path| - 1 - i])
  }

  lemma AtMostReverse(a: Runes, b: Runes)
    ensures Distance(b, a) <= Distance(a, b)
  {
    var path := Reached(a, b);
    var back := Reverse(path);
    forall i | 0 <= i < |back| - 1 ensures Edit(back[i], back[i + 1]) {
      var j := |path| - 2 - i;
      assert Edit(path[j], path[j + 1]);
      EditSymmetric(path[j], path[j + 1]);
    }
    PathBound(back, b, a);
  }

  lemma Metric(a: Runes, b: Runes, c: Runes)
    ensures Distance(a, b) == 0 <==> a == b
    ensures Distance(a, b) == Distance(b, a)
    ensures Distance(a, c) <= Distance(a, b) + Distance(b, c)
  {
    DistanceSelf(a);
    AtMostReverse(a, b);
    AtMostReverse(b, a);
    var p := Reached(a, b);
    var q := Reached(b, c);
    var joined := p + q[1..];
    forall i | 0 <= i < |joined| - 1 ensures Edit(joined[i], joined[i + 1]) {
      if i < |p| - 1 {
        assert Edit(p[i], p[i + 1]);
      } else {
        var k := i - (|p| - 1);
        assert Edit(q[k], q[k + 1]);
        assert joined[i] == q[k];
      }
    }
    PathBound(joined, a, c);
  }

  // A common prefix or suffix does not count.

  lemma {:induction false} SuffixCancels(x: Runes, y: Runes, s: Runes)
    ensures Distance(x + s, y + s) == Distance(x, y)
  {
    hide Distance;
    if s == [] {
      assert x + s == x && y + s == y;
    } else {
      var init, c := s[..|s| - 1], s[|s| - 1];
      SuffixCancels(x, y, init);
      var x', y' := x + init, y + init;
      assert x + s == x' + [c] && y + s == y' + [c];
      DistanceSnoc(x', c, y' + [c]);
      Snoc(y', c);
      DropLast(x', c, y');
      DropLast(y', c, x');
      Metric(x', y', y');
      Metric(x', y' + [c], y');
    }
  }

  function Mirror(x: Runes): (r: Runes)
    ensures |r| == |x|
  {
    seq(|x|, i requires 0 <= i < |x| => x[|x| - 1 - i])
  }

  lemma MirrorConcat(x: Runes, y: Runes)
    ensures Mirror(x + y) == Mirror(y) + Mirror(x)
  {}

  lemma MirrorTwice(x: Runes)
    ensures Mirror(Mirror(x)) == x
  {}

  lemma EditMirror(x: Runes, y: Runes)
    requires Edit(x, y)
    ensures Edit(Mirror(x), Mirror(y))
  {
    var u, s, t, v :| EditAt(x, y, u, s, t, v);
    MirrorConcat(u + s, v);
    MirrorConcat(u, s);
    MirrorConcat(u + t, v);
    MirrorConcat(u, t);
    assert Mirror(s) == s && Mirror(t) == t;
    assert Mirror(x) == Mirror(v) + s + Mirror(u) && Mirror(y) == Mirror(v) + t + Mirror(u);
    assert EditAt(Mirror(x), Mirror(y), Mirror(v), s, t, Mirror(u));
  }

  lemma AtMostMirror(a: Runes, b: Runes)
    ensures Distance(Mirror(a), Mirror(b)) <= Distance(a, b)
  {
    var path := Reached(a, b);
    var image := seq(|path|, i requires 0 <= i < |path| => Mirror(path[i]));
    forall i | 0 <= i < |image| - 1 ensures Edit(image[i], image[i + 1]) {
      EditMirror(path[i], path[i + 1]);
    }
    PathBound(image, Mirror(a), Mirror(b));
  }

  lemma MirrorDistance(a: Runes, b: Runes)
    ensures Distance(Mirror(a), Mirror(b)) == Distance(a, b)
  {
    AtMostMirror(a, b);
    AtMostMirror(Mirror(a), Mirror(b));
    MirrorTwice(a);
    MirrorTwice(b);
  }

  lemma PrefixCancels(p: Runes, x: Runes, y: Runes)
    ensures Distance(p + x, p + y) == Distance(x, y)
  {
    MirrorDistance(p + x, p + y);
    MirrorConcat(p, x);
    MirrorConcat(p, y);
    SuffixCancels(Mirror(x), Mirror(y), Mirror(p));
    MirrorDistance(x, y);
  }
}
