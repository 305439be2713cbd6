/** Reading /proc/self/mountinfo: octal escapes in the mount point, and the topmost of stacked mounts. */
module MountInfo {

  newtype byte = x: int | 0 <= x < 256

  type Bytes = seq<byte>

  const BACKSLASH: byte := 92
  const ZERO: byte := 48

  predicate Octal(b: byte) {
    ZERO <= b <= ZERO + 7
  }

  function OctalValue(a: byte, b: byte, c: byte): nat
    requires Octal(a) && Octal(b) && Octal(c)
  {
    (a - ZERO) as int * 64 + (b - ZERO) as int * 8 + (c - ZERO) as int
  }

  /** A backslash and three octal digits whose value fits a byte. */
  predicate Triplet(s: Bytes) {
    |s| >= 4 && s[0] == BACKSLASH && Octal(s[1]) && Octal(s[2]) && Octal(s[3]) && OctalValue(s[1], s[2], s[3]) < 256
  }

  function Unescaped(s: Bytes): Bytes {
    if s == [] then []
    else if Triplet(s) then [OctalValue(s[1], s[2], s[3]) as byte] + Unescaped(s[4..])
    else [s[0]] + Unescaped(s[1..])
  }

  lemma {:induction false} NothingToDo(s: Bytes)
    requires BACKSLASH !in s
    ensures Unescaped(s) == s
  {
    if s != [] {
      NothingToDo(s[1..]);
    }
  }

  predicate TripletAt(s: Bytes, i: nat) {
    && i + 3 < |s| && s[i] == BACKSLASH && Octal(s[i + 1]) && Octal(s[i + 2]) && Octal(s[i + 3])
    && OctalValue(s[i + 1], s[i + 2], s[i + 3]) < 256
  }

  lemma UnescapedFrom(s: Bytes, i: nat)
    requires i < |s|
    ensures TripletAt(s, i) ==>
              Unescaped(s[i..]) == [OctalValue(s[i + 1], s[i + 2], s[i + 3]) as byte] + Unescaped(s[i + 4..])
    ensures !TripletAt(s, i) ==> Unescaped(s[i..]) == [s[i]] + Unescaped(s[i + 1..])
  {
    var rest := s[i..];
    assert rest[1..] == s[i + 1..];
    assert TripletAt(s, i) ==> rest[4..] == s[i + 4..];
  }

  method UnescapeMountInfo(s: Bytes) returns (out: Bytes)
    ensures out == Unescaped(s)
  {
    hide Unescaped, OctalValue;
    if BACKSLASH !in s {
      NothingToDo(s);
      return s;
    }
    out := [];
    var i := 0;
    assert s[0..] == s;
    while i < |s|
      invariant 0 <= i <= |s| && out + Unescaped(s[i..]) == Unescaped(s)
    {
      UnescapedFrom(s, i);
      if TripletAt(s, i) {
        out := out + [OctalValue(s[i + 1], s[i + 2], s[i + 3]) as byte];
        i := i + 3;
      } else {
        out := out + [s[i]];
      }
      i := i + 1;
    }
    UnescapedEnd();
    assert s[|s|..] == [];
  }

  lemma UnescapedEnd()
    ensures Unescaped([]) == []
  {}

  // Escaping, as the kernel does it for a set of bytes.

  function Escape1(escaped: set<byte>, b: byte): Bytes {
    if b in escaped then [BACKSLASH, ZERO + b / 64, ZERO + b / 8 % 8, ZERO + b % 8] else [b]
  }

  function Escape(escaped: set<byte>, s: Bytes): Bytes {
    if s == [] then [] else Escape1(escaped, s[0]) + Escape(escaped, s[1..])
  }

  /** The escape set tells apart an escape from literal text. */
  ghost predicate Faithful(escaped: set<byte>) {
    BACKSLASH in escaped || {ZERO, ZERO + 1, ZERO + 2, ZERO + 3} <= escaped
  }

  lemma EscapeTriplet(escaped: set<byte>, b: byte, rest: Bytes)
    requires b in escaped
    ensures var s := Escape1(escaped, b) + rest;
            Triplet(s) && OctalValue(s[1], s[2], s[3]) == b as int && s[4..] == rest
  {}

  /** After a literal backslash no escaped text starts with a digit that could begin a triplet. */
  lemma LiteralBackslash(escaped: set<byte>, s: Bytes)
    requires Faithful(escaped) && BACKSLASH !in escaped
    ensures !Triplet([BACKSLASH] + Escape(escaped, s))
  {
    var text := [BACKSLASH] + Escape(escaped, s);
    if s != [] {
      assert text[1] == Escape1(escaped, s[0])[0];
      assert text[1] !in {ZERO, ZERO + 1, ZERO + 2, ZERO + 3};
    }
  }

  lemma {:induction false} UnescapeEscape(escaped: set<byte>, s: Bytes)
    requires Faithful(escaped)
    ensures Unescaped(Escape(escaped, s)) == s
  {
    if s != [] {
      var b, rest := s[0], Escape(escaped, s[1..]);
      UnescapeEscape(escaped, s[1..]);
      assert s == [b] + s[1..];
      if b in escaped {
        EscapeTriplet(escaped, b, rest);
      } else {
        if b == BACKSLASH { LiteralBackslash(escaped, s[1..]); }
        assert ([b] + rest)[1..] == rest;
      }
    }
  }

  /** Every path survives escaping and reading back exactly when the backslash is escaped, or the digits 0 to 3
      all are; the kernel escapes the backslash. */
  lemma RoundTrip(escaped: set<byte>)
    ensures (forall s :: Unescaped(Escape(escaped, s)) == s) <==> Faithful(escaped)
  {
    if Faithful(escaped) {
      forall s ensures Unescaped(Escape(escaped, s)) == s {
        UnescapeEscape(escaped, s);
      }
    } else {
      var d :| d in {ZERO, ZERO + 1, ZERO + 2, ZERO + 3} && d !in escaped;
      var s := [BACKSLASH, d, d, d];
      LiteralText(escaped, d);
      assert Triplet(s);
      assert |Unescaped(s)| == 1 + |Unescaped(s[4..])| == 1;
    }
  }

  lemma LiteralText(escaped: set<byte>, d: byte)
    requires d !in escaped && BACKSLASH !in escaped
    ensures Escape(escaped, [BACKSLASH, d, d, d]) == [BACKSLASH, d, d, d]
  {
    assert [BACKSLASH, d, d, d][1..] == [d, d, d] && [d, d, d][1..] == [d, d] && [d, d][1..] == [d];
    assert Escape(escaped, [d]) == [d] && Escape(escaped, [d, d]) == [d, d] && Escape(escaped, [d, d, d]) == [d, d, d];
  }

  // The topmost mount.

  /** A line cut at its " - ": the fields before it and those after it. */
  datatype Line = Line(before: seq<Bytes>, after: seq<Bytes>)

  /** A mount as the kernel knows it. */
  datatype Mount = Mount(point: Bytes, fsType: Bytes)

  datatype Found = Missing | Found(fsType: Bytes)

  ghost function Topmost(mounts: seq<Mount>, point: Bytes): Found {
    if mounts == [] then Missing
    else if mounts[|mounts| - 1].point == point then Found(mounts[|mounts| - 1].fsType)
    else Topmost(mounts[..|mounts| - 1], point)
  }

  /** The kernel prints this mount as this line; the fields around the mount point and the type are its own. */
  ghost predicate Prints(escaped: set<byte>, m: Mount, line: Line) {
    |line.before| >= 5 && line.before[4] == Escape(escaped, m.point) && line.after != [] && line.after[0] == m.fsType
  }

  /** A line that counts, with enough fields before and after the separator, and is for this mount point. */
  predicate Matches(line: Line, point: Bytes) {
    |line.before| >= 5 && line.after != [] && Unescaped(line.before[4]) == point
  }

  /** The last matching line is the one reported; lines that cannot be read are passed over. */
  ghost predicate Reported(lines: seq<Line>, point: Bytes, r: Found) {
    match r
    case Missing => forall i :: 0 <= i < |lines| ==> !Matches(lines[i], point)
    case Found(fsType) =>
      exists i :: 0 <= i < |lines| && Matches(lines[i], point) && fsType == lines[i].after[0]
                  && forall j :: i < j < |lines| ==> !Matches(lines[j], point)
  }

  lemma ReportedNext(lines: seq<Line>, point: Bytes, r: Found, line: Line)
    requires Reported(lines, point, r)
    ensures Reported(lines + [line], point, if Matches(line, point) then Found(line.after[0]) else r)
  {
    var all := lines + [line];
    if Matches(line, point) {
      assert all[|lines|] == line;
    } else if r.Found? {
      var i :| 0 <= i < |lines| && Matches(lines[i], point) && r.fsType == lines[i].after[0]
               && forall j :: i < j < |lines| ==> !Matches(lines[j], point);
      assert all[i] == lines[i];
    }
  }

  method MountpointFsType(lines: seq<Line>, point: Bytes) returns (r: Found)
    ensures Reported(lines, point, r)
  {
    hide Unescaped;
    r := Missing;
    for i := 0 to |lines|
      invariant Reported(lines[..i], point, r)
    {
      ReportedNext(lines[..i], point, r, lines[i]);
      assert lines[..i + 1] == lines[..i] + [lines[i]];
      if |lines[i].before| >= 5 && lines[i].after != [] {
        var at := UnescapeMountInfo(lines[i].before[4]);
        if at == point {
          r := Found(lines[i].after[0]);
        }
      }
    }
    assert lines[..|lines|] == lines;
  }

  /** On the lines that print a mount table, the one reported is the topmost mount. */
  lemma {:induction false} ReportedIsTopmost(
    escaped: set<byte>, mounts: seq<Mount>, lines: seq<Line>, point: Bytes, r: Found)
    requires Faithful(escaped) && |lines| == |mounts| && Reported(lines, point, r)
    requires forall k :: 0 <= k < |lines| ==> Prints(escaped, mounts[k], lines[k])
    ensures r == Topmost(mounts, point)
  {
    hide Unescaped, Escape, Faithful;
    if mounts != [] {
      var n := |mounts| - 1;
      assert Prints(escaped, mounts[n], lines[n]);
      UnescapeEscape(escaped, mounts[n].point);
      if mounts[n].point != point {
        ReportedIsTopmost(escaped, mounts[..n], lines[..n], point, r);
      }
    }
  }
}
