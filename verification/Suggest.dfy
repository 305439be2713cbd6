/** Nearest and nearestTracepoints: the closest candidates under two caps, against what "closest" means. */
module Suggest {
  import opened StrDist
  import opened Text

  datatype Scored = Scored(s: Runes, dist: nat)

  predicate Before(a: Scored, b: Scored) {
    a.dist < b.dist || (a.dist == b.dist && NameLess(a.s, b.s))
  }

  predicate NotAfter(a: Scored, b: Scored) {
    !Before(b, a)
  }

  lemma ScoreOrder(a: Scored, b: Scored, c: Scored)
    ensures NotAfter(a, a)
    ensures NotAfter(a, b) || NotAfter(b, a)
    ensures NotAfter(a, b) && NotAfter(b, a) ==> a == b
    ensures NotAfter(a, b) && NotAfter(b, c) ==> NotAfter(a, c)
  {
    NameOrder(a.s, b.s, c.s);
    NameOrder(a.s, a.s, a.s);
  }

  ghost predicate InOrder(s: seq<Scored>) {
    forall i, j :: 0 <= i < j < |s| ==> NotAfter(s[i], s[j])
  }

  lemma InsertInOrder(r: seq<Scored>, k: nat, x: Scored)
    requires InOrder(r) && k <= |r|
    requires k > 0 ==> NotAfter(r[k - 1], x)
    requires forall j :: k <= j < |r| ==> NotAfter(x, r[j])
    ensures InOrder(r[..k] + [x] + r[k..])
    ensures multiset(r[..k] + [x] + r[k..]) == multiset(r) + multiset{x}
  {
    hide NotAfter;
    assert multiset(r[..k] + [x] + r[k..]) == multiset(r) + multiset{x} by {
      assert r == r[..k] + r[k..];
    }
    forall j | 0 <= j < k ensures NotAfter(r[j], x) {
      ScoreOrder(r[j], r[k - 1], x);
    }
    var s := r[..k] + [x] + r[k..];
    forall i, j | 0 <= i < j < |s| ensures NotAfter(s[i], s[j]) {
      assert s[i] == if i < k then r[i] else if i == k then x else r[i - 1];
      assert s[j] == if j < k then r[j] else if j == k then x else r[j - 1];
    }
  }

  /** slices.SortFunc: some sorted permutation. */
  method SortScores(s: seq<Scored>) returns (r: seq<Scored>)
    ensures InOrder(r) && multiset(r) == multiset(s)
  {
    r := [];
    for i := 0 to |s|
      invariant InOrder(r) && multiset(r) == multiset(s[..i])
    {
      hide InOrder, Before;
      var k := |r|;
      while k > 0 && Before(s[i], r[k - 1])
        invariant 0 <= k <= |r|
        invariant forall j :: k <= j < |r| ==> NotAfter(s[i], r[j])
      {
        ScoreOrder(s[i], r[k - 1], r[k - 1]);
        k := k - 1;
      }
      InsertInOrder(r, k, s[i]);
      assert s[..i + 1] == s[..i] + [s[i]];
      r := r[..k] + [s[i]] + r[k..];
    }
    assert s[..|s|] == s;
  }

  ghost predicate AllBefore(out: seq<Scored>, c: Scored) {
    forall i :: 0 <= i < |out| ==> NotAfter(out[i], c)
  }

  ghost function Count(s: seq<Scored>, c: Scored): nat {
    multiset(s)[c]
  }

  /** out is the first limit of the candidates within maxDist, closest first. */
  ghost predicate Closest(out: seq<Scored>, candidates: multiset<Scored>, maxDist: nat, limit: nat) {
    && InOrder(out) && |out| <= limit
    && (forall i :: 0 <= i < |out| ==> out[i].dist <= maxDist)
    && (forall c :: Count(out, c) <= candidates[c])
    && (forall c :: Count(out, c) < candidates[c] && c.dist <= maxDist ==> |out| == limit && AllBefore(out, c))
  }

  lemma ClosestHead(out: seq<Scored>, candidates: multiset<Scored>, maxDist: nat, limit: nat, c: Scored)
    requires Closest(out, candidates, maxDist, limit) && limit > 0
    requires c in candidates && c.dist <= maxDist
    ensures out != [] && NotAfter(out[0], c)
  {
    if Count(out, c) > 0 {
      assert c in multiset(out);
      assert c in out;
      ScoreOrder(c, c, c);
    }
  }

  lemma CountCons(out: seq<Scored>, c: Scored)
    requires out != []
    ensures Count(out, c) == Count(out[1..], c) + if c == out[0] then 1 else 0
  {
    assert out == [out[0]] + out[1..];
  }

  lemma ClosestTail(out: seq<Scored>, candidates: multiset<Scored>, maxDist: nat, limit: nat)
    requires Closest(out, candidates, maxDist, limit) && out != []
    ensures Closest(out[1..], candidates - multiset{out[0]}, maxDist, limit - 1)
  {
    hide NotAfter;
    var rest := candidates - multiset{out[0]};
    CountCons(out, out[0]);
    forall c ensures Count(out[1..], c) <= rest[c] {
      CountCons(out, c);
    }
    forall c | Count(out[1..], c) < rest[c] && c.dist <= maxDist ensures |out[1..]| == limit - 1 && AllBefore(out[1..], c) {
      CountCons(out, c);
    }
    hide Count;
  }

  /** There is only one such list, so the order of the candidates cannot matter. */
  lemma {:induction false} ClosestUnique(
      x: seq<Scored>, y: seq<Scored>, candidates: multiset<Scored>, maxDist: nat, limit: nat)
    requires Closest(x, candidates, maxDist, limit) && Closest(y, candidates, maxDist, limit)
    ensures x == y
  {
    hide Closest, NotAfter;
    if x != [] {
      ClosestIn(x, candidates, maxDist, limit);
      ClosestHead(y, candidates, maxDist, limit, x[0]);
      ClosestIn(y, candidates, maxDist, limit);
      ClosestHead(x, candidates, maxDist, limit, y[0]);
      ScoreOrder(x[0], y[0], y[0]);
      ClosestTail(x, candidates, maxDist, limit);
      ClosestTail(y, candidates, maxDist, limit);
      ClosestUnique(x[1..], y[1..], candidates - multiset{x[0]}, maxDist, limit - 1);
      assert x == [x[0]] + x[1..] && y == [y[0]] + y[1..];
    } else if y != [] {
      ClosestIn(y, candidates, maxDist, limit);
      ClosestHead(x, candidates, maxDist, limit, y[0]);
    }
  }

  lemma ClosestIn(out: seq<Scored>, candidates: multiset<Scored>, maxDist: nat, limit: nat)
    requires Closest(out, candidates, maxDist, limit) && out != []
    ensures out[0] in candidates && out[0].dist <= maxDist && limit > 0
  {
    CountCons(out, out[0]);
  }

  function Max(x: nat, y: nat): (r: nat)
    ensures r >= x && r >= y && r in {x, y}
  {
    if x < y then y else x
  }

  /** The relative cap on top of the absolute one. */
  function Cap(absolute: nat, best: nat): nat {
    Min(absolute, 2 * best)
  }

  ghost predicate IsBest(best: nat, scores: seq<Scored>) {
    (exists i :: 0 <= i < |scores| && scores[i].dist == best) && forall i :: 0 <= i < |scores| ==> best <= scores[i].dist
  }

  /** The shared tail of both searches: sort, cap, take. */
  method Take(scores: seq<Scored>, absolute: nat, limit: nat) returns (out: seq<Scored>, ghost best: nat)
    requires limit > 0 && scores != []
    ensures IsBest(best, scores) && Closest(out, multiset(scores), Cap(absolute, best), limit)
    ensures out != [] <==> best <= absolute
    ensures out != [] <==> exists i :: 0 <= i < |scores| && scores[i].dist <= absolute
  {
    hide Closest, InOrder;
    var sorted := SortScores(scores);
    SortedBest(scores, sorted);
    best := sorted[0].dist;
    var maxDist := if 2 * sorted[0].dist < absolute then 2 * sorted[0].dist else absolute;
    out := [];
    for i := 0 to |sorted|
      invariant i <= limit && out == sorted[..i]
      invariant forall j :: 0 <= j < i ==> sorted[j].dist <= maxDist
    {
      if i >= limit {
        break;
      }
      if sorted[i].dist > maxDist {
        break;
      }
      out := out + [sorted[i]];
    }
    assert out <= sorted;
    TakenClosest(scores, sorted, |out|, maxDist, limit);
  }

  lemma SortedBest(scores: seq<Scored>, sorted: seq<Scored>)
    requires scores != [] && InOrder(sorted) && multiset(sorted) == multiset(scores)
    ensures sorted != [] && IsBest(sorted[0].dist, scores)
  {
    assert scores[0] in multiset(sorted);
    assert sorted[0] in multiset(scores);
    assert sorted[0] in scores;
    forall i | 0 <= i < |scores| ensures sorted[0].dist <= scores[i].dist {
      assert scores[i] in multiset(scores);
      assert scores[i] in sorted;
    }
  }

  lemma TakenClosest(scores: seq<Scored>, sorted: seq<Scored>, n: nat, maxDist: nat, limit: nat)
    requires InOrder(sorted) && multiset(sorted) == multiset(scores) && n <= |sorted| && n <= limit
    requires forall j :: 0 <= j < n ==> sorted[j].dist <= maxDist
    requires n == |sorted| || n == limit || sorted[n].dist > maxDist
    ensures Closest(sorted[..n], multiset(scores), maxDist, limit)
  {
    hide NotAfter, AllBefore, InOrder;
    PrefixInOrder(sorted, n);
    forall c ensures Count(sorted[..n], c) <= multiset(scores)[c] {
      CountSplit(sorted, n, c);
    }
    forall c | Count(sorted[..n], c) < multiset(scores)[c] && c.dist <= maxDist
      ensures n == limit && AllBefore(sorted[..n], c)
    {
      CountSplit(sorted, n, c);
      var k :| n <= k < |sorted| && sorted[k] == c;
      LaterIsFarther(sorted, n, k);
      PrefixBefore(sorted, n, k);
    }
    hide Count;
  }

  lemma CountSplit(s: seq<Scored>, n: nat, c: Scored)
    requires n <= |s|
    ensures Count(s[..n], c) <= Count(s, c)
    ensures Count(s[..n], c) < Count(s, c) ==> exists k :: n <= k < |s| && s[k] == c
  {
    assert s == s[..n] + s[n..];
    if Count(s[..n], c) < Count(s, c) {
      assert c in multiset(s[n..]);
      assert c in s[n..];
    }
  }

  lemma PrefixInOrder(sorted: seq<Scored>, n: nat)
    requires InOrder(sorted) && n <= |sorted|
    ensures InOrder(sorted[..n])
  {}

  lemma PrefixBefore(sorted: seq<Scored>, n: nat, k: nat)
    requires InOrder(sorted) && n <= k < |sorted|
    ensures AllBefore(sorted[..n], sorted[k])
  {}

  lemma LaterIsFarther(sorted: seq<Scored>, i: nat, j: nat)
    requires InOrder(sorted) && i <= j < |sorted|
    ensures sorted[i].dist <= sorted[j].dist
  {
    if i < j {
      assert NotAfter(sorted[i], sorted[j]);
    }
  }

  function Names(s: seq<Scored>): seq<Runes> {
    seq(|s|, i requires 0 <= i < |s| => s[i].s)
  }

  /** Every candidate with its score. */
  function Score(candidates: seq<Runes>, score: Runes -> nat): (s: seq<Scored>)
    ensures |s| == |candidates|
  {
    seq(|candidates|, i requires 0 <= i < |candidates| => Scored(candidates[i], score(candidates[i])))
  }

  /** names are the first limit candidates, by score and then by name, among those within the smaller of
      the absolute cap and twice the best score; some are found exactly when the best score is within
      the absolute cap. */
  ghost predicate Suggested(names: seq<Runes>, candidates: seq<Runes>, score: Runes -> nat, absolute: nat, limit: int) {
    if limit <= 0 || candidates == [] then names == []
    else
      exists out: seq<Scored>, best: nat ::
        && names == Names(out) && IsBest(best, Score(candidates, score))
        && Closest(out, multiset(Score(candidates, score)), Cap(absolute, best), limit)
        && (names != [] <==> best <= absolute)
  }

  function NearestCap(target: Runes): nat {
    if |target| <= 3 then 1 else Max(|target| / 2, 3)
  }

  method Nearest(target: Runes, candidates: seq<Runes>, limit: int) returns (names: seq<Runes>)
    ensures Suggested(names, candidates, c => Distance(target, c), NearestCap(target), limit)
  {
    if limit <= 0 || |candidates| == 0 {
      return [];
    }
    var scores: seq<Scored> := [];
    for i := 0 to |candidates|
      invariant scores == Score(candidates[..i], c => Distance(target, c))
    {
      var d := Levenshtein(target, candidates[i]);
      scores := scores + [Scored(candidates[i], d)];
    }
    assert candidates[..|candidates|] == candidates;
    var maxDist := Max(|target| / 2, 3);
    if |target| <= 3 {
      maxDist := 1;
    }
    ghost var best;
    var out;
    out, best := Take(scores, maxDist, limit);
    names := Names(out);
  }

  /** The length of a rune in UTF-8. */
  function RuneLen(c: char): nat {
    if c as int < 0x80 then 1 else if c as int < 0x800 then 2 else if c as int < 0x1_0000 then 3 else 4
  }

  /** The length of a string as Go's len counts it. */
  function ByteLen(s: Runes): nat {
    if s == [] then 0 else ByteLen(s[..|s| - 1]) + RuneLen(s[|s| - 1])
  }

  /** A rune takes the fewest bytes whose payload of 7, 11, 16 or 21 bits holds it (section 3 of RFC 3629). */
  lemma RuneLenIs(c: char)
    ensures RuneLen(c) <= 1 <==> c as int < 128
    ensures RuneLen(c) <= 2 <==> c as int < 32 * 64
    ensures RuneLen(c) <= 3 <==> c as int < 16 * 64 * 64
    ensures 1 <= RuneLen(c) <= 4
  {}

  lemma {:induction false} ByteLenConcat(a: Runes, b: Runes)
    ensures ByteLen(a + b) == ByteLen(a) + ByteLen(b)
    ensures |b| == 1 ==> ByteLen(b) == RuneLen(b[0])
  {
    if b == [] {
      assert a + b == a;
    } else {
      ByteLenConcat(a, b[..|b| - 1]);
      assert (a + b)[..|a + b| - 1] == a + b[..|b| - 1];
    }
  }

  /** strings.Cut(s, "/"). */
  function Cut(s: Runes): (r: (Runes, Runes, bool))
    ensures r.2 ==> s == r.0 + ['/'] + r.1 && '/' !in r.0
    ensures !r.2 ==> r.0 == s && r.1 == [] && '/' !in s
  {
    if s == [] then ([], [], false)
    else if s[0] == '/' then ([], s[1..], true)
    else
      var rest := Cut(s[1..]);
      assert s == [s[0]] + s[1..];
      ([s[0]] + rest.0, rest.1, rest.2)
  }

  const NAME_PREFIX_MIN := 3

  predicate NamePrefix(tn: Runes, cn: Runes) {
    ByteLen(tn) >= NAME_PREFIX_MIN && tn <= cn
  }

  function TracepointDistance(tg: Runes, tn: Runes, candidate: Runes): nat {
    var (cg, cn, ok) := Cut(candidate);
    if !ok then Distance(tg + ['/'] + tn, candidate)
    else if cg == tg && cn == tn then 0
    else if cg == tg then (if NamePrefix(tn, cn) then 0 else Distance(tn, cn))
    else if cn == tn then Distance(tg, cg)
    else if NamePrefix(tn, cn) then Distance(tg, cg)
    else Distance(tg + ['/'] + tn, candidate)
  }

  function TracepointScore(target: Runes, candidate: Runes): nat {
    var (tg, tn, hasSlash) := Cut(target);
    if hasSlash then TracepointDistance(tg, tn, candidate)
    else
      var (_, cn, ok) := Cut(candidate);
      Distance(target, if ok then cn else candidate)
  }

  /** The split-aware score is the plain edit distance of the whole paths, except that a candidate whose
      name properly extends the target's costs only the distance of the groups. */
  lemma TracepointDistanceIs(tg: Runes, tn: Runes, candidate: Runes)
    ensures var (cg, cn, ok) := Cut(candidate);
            TracepointDistance(tg, tn, candidate) ==
            if ok && cn != tn && NamePrefix(tn, cn) then Distance(tg, cg)
            else Distance(tg + ['/'] + tn, candidate)
  {
    hide Distance, Cut, NamePrefix;
    var (cg, cn, ok) := Cut(candidate);
    if ok {
      CommonParts(tg, tn, cg, cn);
    }
  }

  lemma CommonParts(tg: Runes, tn: Runes, cg: Runes, cn: Runes)
    ensures Distance(tg, tg) == 0 && Distance(tg + ['/'] + tn, tg + ['/'] + tn) == 0
    ensures Distance(tg + ['/'] + tn, tg + ['/'] + cn) == Distance(tn, cn)
    ensures Distance(tg + ['/'] + tn, cg + ['/'] + tn) == Distance(tg, cg)
  {
    hide Distance;
    DistanceSelf(tg);
    DistanceSelf(tg + ['/'] + tn);
    PrefixCancels(tg + ['/'], tn, cn);
    SuffixCancels(tg, cg, ['/'] + tn);
    assert tg + ['/'] + tn == tg + (['/'] + tn) && cg + (['/'] + tn) == cg + ['/'] + tn;
  }

  method NearestTracepoints(target: Runes, candidates: seq<Runes>, limit: int) returns (names: seq<Runes>)
    ensures Suggested(names, candidates, c => TracepointScore(target, c), Max(|target| / 2, 5), limit)
  {
    if limit <= 0 || |candidates| == 0 {
      return [];
    }
    var scores: seq<Scored> := [];
    for i := 0 to |candidates|
      invariant scores == Score(candidates[..i], c => TracepointScore(target, c))
    {
      scores := scores + [Scored(candidates[i], TracepointScore(target, candidates[i]))];
    }
    assert candidates[..|candidates|] == candidates;
    ghost var best;
    var out;
    out, best := Take(scores, Max(|target| / 2, 5), limit);
    names := Names(out);
  }

  lemma {:induction false} ScorePermutation(x: seq<Runes>, y: seq<Runes>, score: Runes -> nat)
    requires multiset(x) == multiset(y)
    ensures multiset(Score(x, score)) == multiset(Score(y, score))
  {
    forall s: Scored ensures multiset(Score(x, score))[s] == multiset(Score(y, score))[s] {
      ScoreCount(x, score, s);
      ScoreCount(y, score, s);
    }
  }

  lemma {:induction false} ScoreCount(x: seq<Runes>, score: Runes -> nat, s: Scored)
    ensures multiset(Score(x, score))[s] == if s.dist == score(s.s) then multiset(x)[s.s] else 0
  {
    if x != [] {
      var init, last := x[..|x| - 1], x[|x| - 1];
      ScoreCount(init, score, s);
      assert x == init + [last];
      assert Score(x, score) == Score(init, score) + [Scored(last, score(last))];
    }
  }

  lemma BestSame(x: seq<Scored>, y: seq<Scored>, a: nat, b: nat)
    requires multiset(x) == multiset(y) && IsBest(a, x) && IsBest(b, y)
    ensures a == b
  {
    var i :| 0 <= i < |x| && x[i].dist == a;
    var j :| 0 <= j < |y| && y[j].dist == b;
    assert x[i] in multiset(y) && y[j] in multiset(x);
    assert x[i] in y && y[j] in x;
  }

  /** The suggestions depend on which candidates there are, not on their order. */
  lemma SuggestedOrderFree(
      a: seq<Runes>, b: seq<Runes>, x: seq<Runes>, y: seq<Runes>, score: Runes -> nat, absolute: nat, limit: int)
    requires multiset(x) == multiset(y)
    requires Suggested(a, x, score, absolute, limit) && Suggested(b, y, score, absolute, limit)
    ensures a == b
  {
    assert |x| == |multiset(x)| == |multiset(y)| == |y|;
    if limit > 0 && x != [] {
      var p, q := Score(x, score), Score(y, score);
      ScorePermutation(x, y, score);
      var o1, b1 :| a == Names(o1) && IsBest(b1, p) && Closest(o1, multiset(p), Cap(absolute, b1), limit);
      var o2, b2 :| b == Names(o2) && IsBest(b2, q) && Closest(o2, multiset(q), Cap(absolute, b2), limit);
      BestSame(p, q, b1, b2);
      ClosestUnique(o1, o2, multiset(p), Cap(absolute, b1), limit);
    }
  }

  // What the tracepoint score singles out.

  /** The part of a tracepoint path after its first slash, or all of it. */
  ghost function NamePart(c: Runes): Runes {
    var (_, name, ok) := Cut(c);
    if ok then name else c
  }

  lemma {:induction false} CutIs(group: Runes, name: Runes)
    requires '/' !in group
    ensures Cut(group + ['/'] + name) == (group, name, true)
  {
    var s := group + ['/'] + name;
    if group == [] {
      assert s == ['/'] + name;
    } else {
      CutIs(group[1..], name);
      assert s[1..] == group[1..] + ['/'] + name;
      assert [group[0]] + group[1..] == group;
    }
  }

  /** A target without a slash is compared with the name part alone, whatever the group; and with the whole of a
      candidate that has no slash. */
  lemma NoSlashScore(target: Runes, group: Runes, name: Runes, plain: Runes)
    requires '/' !in target && '/' !in group && '/' !in plain
    ensures TracepointScore(target, group + ['/'] + name) == Distance(target, name)
    ensures TracepointScore(target, plain) == Distance(target, plain)
  {
    hide Distance;
    CutIs(group, name);
  }

  lemma NoSlashScoreIs(target: Runes, candidate: Runes)
    requires '/' !in target
    ensures TracepointScore(target, candidate) == Distance(target, NamePart(candidate))
  {
    hide Distance;
  }

  /** The closest candidates when one scores nothing: all of them score nothing. */
  lemma PerfectOnly(names: seq<Runes>, candidates: seq<Runes>, score: Runes -> nat, absolute: nat, limit: int, c: Runes)
    requires Suggested(names, candidates, score, absolute, limit) && limit > 0 && c in candidates && score(c) == 0
    ensures names != [] && forall x :: x in names ==> x in candidates && score(x) == 0
  {
    var scores := Score(candidates, score);
    var out: seq<Scored>, best: nat :|
      names == Names(out) && IsBest(best, scores) && Closest(out, multiset(scores), Cap(absolute, best), limit)
      && (names != [] <==> best <= absolute);
    var k :| 0 <= k < |candidates| && candidates[k] == c;
    assert scores[k].dist == 0;
    forall i | 0 <= i < |out| ensures out[i].s in candidates && score(out[i].s) == 0 {
      CountIn(out, multiset(scores), Cap(absolute, best), limit, i);
      assert out[i] in scores;
    }
  }

  lemma CountIn(out: seq<Scored>, candidates: multiset<Scored>, maxDist: nat, limit: nat, i: nat)
    requires Closest(out, candidates, maxDist, limit) && i < |out|
    ensures out[i] in candidates && out[i].dist <= maxDist
  {
    assert out[i] in multiset(out);
  }

  /** If some candidate's name part is the target, then only such candidates are suggested, and some are. */
  lemma NameMatches(names: seq<Runes>, candidates: seq<Runes>, target: Runes, absolute: nat, limit: int, c: Runes)
    requires Suggested(names, candidates, x => TracepointScore(target, x), absolute, limit)
    requires '/' !in target && limit > 0 && c in candidates && NamePart(c) == target
    ensures names != [] && forall x :: x in names ==> x in candidates && NamePart(x) == target
  {
    hide Distance, TracepointScore, Suggested, NamePart;
    NoSlashScoreIs(target, c);
    DistanceSelf(target);
    PerfectOnly(names, candidates, x => TracepointScore(target, x), absolute, limit, c);
    forall x | x in names ensures NamePart(x) == target {
      NoSlashScoreIs(target, x);
      Metric(target, NamePart(x), target);
    }
  }

  /** A target with a slash scores nothing on itself and on the extensions, in its group, of a name of at least
      three bytes; on nothing else. */
  lemma SlashPerfect(group: Runes, name: Runes, candidate: Runes)
    requires '/' !in group
    ensures TracepointScore(group + ['/'] + name, candidate) == 0 <==>
            || candidate == group + ['/'] + name
            || (ByteLen(name) >= 3 && exists more :: candidate == group + ['/'] + (name + more))
  {
    hide Distance, ByteLen, TracepointDistance;
    CutIs(group, name);
    TracepointDistanceIs(group, name, candidate);
    var (g, n, ok) := Cut(candidate);
    Metric(group, g, group);
    Metric(group + ['/'] + name, candidate, group);
    if ok && name <= n {
      assert n == name + n[|name|..];
    }
    if more :| candidate == group + ['/'] + (name + more) {
      CutIs(group, name + more);
      assert name <= name + more;
    }
  }
}
