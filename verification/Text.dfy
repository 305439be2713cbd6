/** Go's order on strings, and the splitting and joining of strings at a separator. */
module Text {

  /** Go's string order. */
  predicate NameLess(a: string, b: string) {
    b != [] && (a == [] || a[0] < b[0] || (a[0] == b[0] && NameLess(a[1..], b[1..])))
  }

  lemma {:induction false} NameOrder(a: string, b: string, c: string)
    ensures NameLess(a, b) ==> !NameLess(b, a)
    ensures !NameLess(a, b) && !NameLess(b, a) ==> a == b
    ensures !NameLess(b, a) && !NameLess(c, b) ==> !NameLess(c, a)
    decreases |a| + |b| + |c|
  {
    if a != [] && b != [] {
      NameOrder(a[1..], b[1..], if c != [] then c[1..] else c);
      assert a[0] == b[0] && a[1..] == b[1..] ==> a == b by {
        assert a == [a[0]] + a[1..] && b == [b[0]] + b[1..];
      }
    }
  }

  /** The first place where two strings differ decides; a proper prefix comes first. */
  lemma {:induction false} FirstDifference(a: string, b: string)
    ensures NameLess(a, b) <==>
            exists k :: 0 <= k <= |a| && k < |b| && a[..k] == b[..k] && (k == |a| || a[k] < b[k])
  {
    if b == [] {
    } else if a == [] {
      assert a[..0] == b[..0];
    } else if a[0] < b[0] {
      assert a[..0] == b[..0];
    } else if a[0] == b[0] {
      FirstDifference(a[1..], b[1..]);
      if NameLess(a, b) {
        var k :| 0 <= k <= |a[1..]| && k < |b[1..]| && a[1..][..k] == b[1..][..k] && (k == |a[1..]| || a[1..][k] < b[1..][k]);
        assert a[..k + 1] == [a[0]] + a[1..][..k] && b[..k + 1] == [b[0]] + b[1..][..k];
      }
      if k :| 0 <= k <= |a| && k < |b| && a[..k] == b[..k] && (k == |a| || a[k] < b[k]) {
        assert k > 0 ==> a[1..][..k - 1] == a[..k][1..] && b[1..][..k - 1] == b[..k][1..];
      }
    } else {
      assert forall k :: 0 < k <= |a| && k < |b| ==> a[..k][0] == a[0] && b[..k][0] == b[0];
    }
  }

  /** The fields between the separators; there is always at least one. */
  function Split(s: string, sep: char): (f: seq<string>)
    ensures f != [] && forall x :: x in f ==> sep !in x
  {
    if s == [] then [[]]
    else
      var rest := Split(s[1..], sep);
      if s[0] == sep then [[]] + rest else [[s[0]] + rest[0]] + rest[1..]
  }

  function Join(parts: seq<string>, sep: char): string {
    if parts == [] then [] else if |parts| == 1 then parts[0] else parts[0] + [sep] + Join(parts[1..], sep)
  }

  lemma {:induction false} SplitOfJoin(parts: seq<string>, sep: char)
    requires parts != [] && forall x :: x in parts ==> sep !in x
    ensures Split(Join(parts, sep), sep) == parts
  {
    assert parts[0] in parts;
    if |parts| == 1 {
      SplitAppend(parts[0], [], sep);
      assert parts[0] + [] == parts[0];
    } else {
      SplitOfJoin(parts[1..], sep);
      SplitAppend(parts[0], [sep] + Join(parts[1..], sep), sep);
      assert Join(parts, sep) == parts[0] + ([sep] + Join(parts[1..], sep));
      assert ([sep] + Join(parts[1..], sep))[1..] == Join(parts[1..], sep);
      assert parts[0] + [] == parts[0] && [parts[0]] + parts[1..] == parts;
    }
  }

  lemma {:induction false} SplitAppend(part: string, rest: string, sep: char)
    requires sep !in part
    ensures Split(part + rest, sep) == [part + Split(rest, sep)[0]] + Split(rest, sep)[1..]
  {
    if part == [] {
      assert part + rest == rest;
      assert part + Split(rest, sep)[0] == Split(rest, sep)[0];
    } else {
      assert (part + rest)[1..] == part[1..] + rest;
      SplitAppend(part[1..], rest, sep);
      assert [part[0]] + (part[1..] + Split(rest, sep)[0]) == part + Split(rest, sep)[0];
    }
  }

  lemma {:induction false} JoinOfSplit(s: string, sep: char)
    ensures Join(Split(s, sep), sep) == s
  {
    if s != [] {
      var rest := Split(s[1..], sep);
      JoinOfSplit(s[1..], sep);
      assert s == [s[0]] + s[1..];
      if s[0] == sep {
        assert ([[]] + rest)[1..] == rest;
      } else {
        assert ([[s[0]] + rest[0]] + rest[1..])[1..] == rest[1..];
        assert |rest| == 1 ==> rest == [rest[0]];
      }
    }
  }
}
