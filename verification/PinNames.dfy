/** The names of dispatcher revision directories and dispatcher links in bpffs: printing and parsing. */
module PinNames {

  import opened Options
  import opened Text

  const UINT64: nat := 0x1_0000_0000_0000_0000
  const UINT32: nat := 0x1_0000_0000

  // Decimal numbers.

  function Digit(n: nat): char
    requires n < 10
  {
    '0' + n as char
  }

  predicate IsDigit(c: char) {
    '0' <= c <= '9'
  }

  function DigitValue(c: char): nat
    requires IsDigit(c)
  {
    (c - '0') as nat
  }

  ghost predicate Digits(s: string) {
    forall c :: c in s ==> IsDigit(c)
  }

  /** %d of an unsigned number. */
  function Decimal(n: nat): string {
    if n < 10 then [Digit(n)] else Decimal(n / 10) + [Digit(n % 10)]
  }

  function Value(s: string): nat
    requires forall c :: c in s ==> IsDigit(c)
  {
    if s == [] then 0 else 10 * Value(s[..|s| - 1]) + DigitValue(s[|s| - 1])
  }

  /** strconv.ParseUint in base 10, for numbers below the limit. */
  function ParseUint(s: string, limit: nat): Option<nat> {
    if s != [] && (forall c :: c in s ==> IsDigit(c)) && Value(s) < limit then Some(Value(s)) else None
  }

  lemma {:induction false} DecimalIs(n: nat)
    ensures Decimal(n) != [] && Digits(Decimal(n)) && Value(Decimal(n)) == n
    ensures |Decimal(n)| > 1 ==> Decimal(n)[0] != '0'
    ensures n > 0 ==> Decimal(n)[0] != '0'
  {
    if n < 10 {
      assert [Digit(n)][..0] == [];
    } else {
      DecimalIs(n / 10);
      var init := Decimal(n / 10);
      assert (init + [Digit(n % 10)])[..|init|] == init;
    }
  }

  /** A number below the limit parses back; nothing else prints like it. */
  lemma ParseOfDecimal(n: nat, limit: nat)
    requires n < limit
    ensures ParseUint(Decimal(n), limit) == Some(n) && '_' !in Decimal(n)
  {
    DecimalIs(n);
  }

  ghost predicate Canonical(s: string) {
    |s| == 1 || (|s| > 1 && s[0] != '0')
  }

  lemma ValueSnoc(s: string)
    requires s != [] && Digits(s)
    ensures var last := DigitValue(s[|s| - 1]);
            last < 10 && Digits(s[..|s| - 1]) && Value(s) == 10 * Value(s[..|s| - 1]) + last && Digit(last) == s[|s| - 1]
  {
    assert s[|s| - 1] in s;
    assert forall c :: c in s[..|s| - 1] ==> c in s;
  }

  lemma DecimalSnoc(n: nat, last: nat)
    requires n > 0 && last < 10
    ensures Decimal(10 * n + last) == Decimal(n) + [Digit(last)]
  {
    assert (10 * n + last) / 10 == n && (10 * n + last) % 10 == last;
  }

  lemma {:induction false} CanonicalValue(s: string)
    requires s != [] && Digits(s) && Canonical(s)
    ensures Decimal(Value(s)) == s && (s[0] != '0' ==> Value(s) > 0)
  {
    var init := s[..|s| - 1];
    ValueSnoc(s);
    assert s == init + [s[|s| - 1]];
    if init != [] {
      CanonicalValue(init);
      DecimalSnoc(Value(init), DigitValue(s[|s| - 1]));
    }
  }

  /** Printing what was parsed gives the text back exactly when it has no leading zero. */
  lemma DecimalOfValue(s: string)
    requires s != [] && Digits(s)
    ensures Decimal(Value(s)) == s <==> Canonical(s)
  {
    hide Decimal, Value;
    DecimalIs(Value(s));
    if Canonical(s) {
      CanonicalValue(s);
    }
  }

  // The names.

  const PREFIX := "dispatcher_"
  const SUFFIX := "_link"

  datatype Revision = Revision(nsid: nat, ifindex: nat, revision: nat)

  datatype Attachment = Attachment(nsid: nat, ifindex: nat)

  ghost predicate RevisionFits(r: Revision) {
    r.nsid < UINT64 && r.ifindex < UINT32 && r.revision < UINT32
  }

  ghost predicate AttachmentFits(a: Attachment) {
    a.nsid < UINT64 && a.ifindex < UINT32
  }

  function RevisionParts(r: Revision): seq<string> {
    [Decimal(r.nsid), Decimal(r.ifindex), Decimal(r.revision)]
  }

  function RevisionName(r: Revision): string {
    PREFIX + Decimal(r.nsid) + ['_'] + Decimal(r.ifindex) + ['_'] + Decimal(r.revision)
  }

  function LinkName(a: Attachment): string {
    PREFIX + Decimal(a.nsid) + ['_'] + Decimal(a.ifindex) + SUFFIX
  }

  predicate HasPrefix(s: string, p: string) {
    |p| <= |s| && s[..|p|] == p
  }

  predicate HasSuffix(s: string, p: string) {
    |p| <= |s| && s[|s| - |p|..] == p
  }

  function TrimPrefix(s: string, p: string): string {
    if HasPrefix(s, p) then s[|p|..] else s
  }

  function TrimSuffix(s: string, p: string): string {
    if HasSuffix(s, p) then s[..|s| - |p|] else s
  }

  function ParseRevision(name: string): Option<Revision> {
    if !HasPrefix(name, PREFIX) then None
    else
      var parts := Split(TrimPrefix(name, PREFIX), '_');
      if |parts| != 3 then None
      else
        var nsid, ifindex, revision := ParseUint(parts[0], UINT64), ParseUint(parts[1], UINT32), ParseUint(parts[2], UINT32);
        if nsid.None? || ifindex.None? || revision.None? then None
        else Some(Revision(nsid.value, ifindex.value, revision.value))
  }

  function ParseLink(name: string): Option<Attachment> {
    if !HasPrefix(name, PREFIX) || !HasSuffix(name, SUFFIX) then None
    else
      var parts := Split(TrimSuffix(TrimPrefix(name, PREFIX), SUFFIX), '_');
      if |parts| != 2 then None
      else
        var nsid, ifindex := ParseUint(parts[0], UINT64), ParseUint(parts[1], UINT32);
        if nsid.None? || ifindex.None? then None else Some(Attachment(nsid.value, ifindex.value))
  }

  lemma Join3(a: string, b: string, c: string)
    ensures Join([a, b, c], '_') == a + ['_'] + b + ['_'] + c
  {
    assert [a, b, c][1..] == [b, c] && [b, c][1..] == [c];
    assert Join([b, c], '_') == b + ['_'] + c;
  }

  lemma Join2(a: string, b: string)
    ensures Join([a, b], '_') == a + ['_'] + b
  {
    assert [a, b][1..] == [b];
  }

  lemma NameParts(r: Revision)
    ensures HasPrefix(RevisionName(r), PREFIX) && Split(TrimPrefix(RevisionName(r), PREFIX), '_') == RevisionParts(r)
  {
    DecimalIs(r.nsid);
    DecimalIs(r.ifindex);
    DecimalIs(r.revision);
    var parts := RevisionParts(r);
    Join3(parts[0], parts[1], parts[2]);
    SplitOfJoin(parts, '_');
    assert RevisionName(r) == PREFIX + Join(parts, '_');
    assert RevisionName(r)[|PREFIX|..] == Join(parts, '_');
  }

  /** Parsing the name of a revision directory gives the revision back. */
  lemma RevisionRoundTrip(r: Revision)
    requires RevisionFits(r)
    ensures ParseRevision(RevisionName(r)) == Some(r)
  {
    hide ParseUint, Split, RevisionName;
    ParseOfDecimal(r.nsid, UINT64);
    ParseOfDecimal(r.ifindex, UINT32);
    ParseOfDecimal(r.revision, UINT32);
    NameParts(r);
  }

  function LinkFields(name: string): seq<string> {
    Split(TrimSuffix(TrimPrefix(name, PREFIX), SUFFIX), '_')
  }

  lemma LinkParts(a: Attachment)
    ensures HasPrefix(LinkName(a), PREFIX) && HasSuffix(LinkName(a), SUFFIX)
    ensures LinkFields(LinkName(a)) == [Decimal(a.nsid), Decimal(a.ifindex)]
  {
    DecimalIs(a.nsid);
    DecimalIs(a.ifindex);
    var parts := [Decimal(a.nsid), Decimal(a.ifindex)];
    Join2(parts[0], parts[1]);
    SplitOfJoin(parts, '_');
    var rest := Join(parts, '_') + SUFFIX;
    assert LinkName(a) == PREFIX + rest;
    assert LinkName(a)[|PREFIX|..] == rest;
    assert rest[|rest| - |SUFFIX|..] == SUFFIX && rest[..|rest| - |SUFFIX|] == Join(parts, '_');
    assert LinkName(a)[|LinkName(a)| - |SUFFIX|..] == SUFFIX;
  }

  lemma LinkRoundTrip(a: Attachment)
    requires AttachmentFits(a)
    ensures ParseLink(LinkName(a)) == Some(a)
  {
    hide ParseUint, Split, LinkName;
    ParseOfDecimal(a.nsid, UINT64);
    ParseOfDecimal(a.ifindex, UINT32);
    LinkParts(a);
  }

  lemma SuffixEnds(name: string)
    ensures HasSuffix(name, SUFFIX) ==> name != [] && name[|name| - 1] == 'k'
  {
    if HasSuffix(name, SUFFIX) {
      assert name[|name| - 1] == SUFFIX[|SUFFIX| - 1];
    }
  }

  /** A name that parses as a revision directory ends in a digit, so it is no link's name. */
  lemma NoNameIsBoth(name: string)
    ensures ParseRevision(name).None? || ParseLink(name).None?
  {
    SuffixEnds(name);
    if ParseRevision(name).Some? {
      var rest := TrimPrefix(name, PREFIX);
      var parts := Split(rest, '_');
      JoinOfSplit(rest, '_');
      assert parts == [parts[0], parts[1], parts[2]];
      Join3(parts[0], parts[1], parts[2]);
      assert name[|name| - 1] == rest[|rest| - 1] == parts[2][|parts[2]| - 1];
      assert parts[2][|parts[2]| - 1] in parts[2];
    }
  }

  lemma ParsedParts(name: string)
    requires ParseRevision(name).Some?
    ensures var parts, r := Split(TrimPrefix(name, PREFIX), '_'), ParseRevision(name).value;
            && |parts| == 3 && RevisionFits(r) && name == "dispatcher_" + Join(parts, '_')
            && (forall x :: x in parts ==> x != [] && Digits(x))
            && r == Revision(Value(parts[0]), Value(parts[1]), Value(parts[2]))
  {
    JoinOfSplit(TrimPrefix(name, PREFIX), '_');
  }

  /** A revision's name is the only one that parses to it, leading zeros apart. */
  lemma ParsedIsName(name: string)
    requires ParseRevision(name).Some?
    ensures var parts := Split(TrimPrefix(name, PREFIX), '_');
            && |parts| == 3 && RevisionFits(ParseRevision(name).value)
            && (RevisionName(ParseRevision(name).value) == name <==> forall x :: x in parts ==> Canonical(x))
  {
    hide ParseRevision, Split, Decimal, Value, Canonical;
    ParsedParts(name);
    var parts, r := Split(TrimPrefix(name, PREFIX), '_'), ParseRevision(name).value;
    assert parts[0] in parts && parts[1] in parts && parts[2] in parts;
    DecimalOfValue(parts[0]);
    DecimalOfValue(parts[1]);
    DecimalOfValue(parts[2]);
    NameParts(r);
    assert parts == [parts[0], parts[1], parts[2]];
    Join3(parts[0], parts[1], parts[2]);
    assert RevisionName(r) == name ==> parts == RevisionParts(r);
  }

  /** What parses as a link's name is the prefix, two numbers and the suffix. */
  lemma ParsedLinkParts(name: string)
    requires ParseLink(name).Some?
    ensures var parts, a := LinkFields(name), ParseLink(name).value;
            && |parts| == 2 && AttachmentFits(a) && name == "dispatcher_" + parts[0] + ['_'] + parts[1] + "_link"
            && (forall x :: x in parts ==> x != [] && Digits(x)) && a == Attachment(Value(parts[0]), Value(parts[1]))
  {
    var rest := TrimPrefix(name, PREFIX);
    var fields := TrimSuffix(rest, SUFFIX);
    var parts := LinkFields(name);
    JoinOfSplit(fields, '_');
    assert parts == [parts[0], parts[1]];
    Join2(parts[0], parts[1]);
    assert name == PREFIX + rest;
    SuffixEnds(name);
    assert parts[1][|parts[1]| - 1] in parts[1] && parts[1][|parts[1]| - 1] == fields[|fields| - 1] != 'k';
    assert name[|name| - 1] == rest[|rest| - 1];
    assert rest == fields + SUFFIX;
  }

  /** A link's name is the only one that parses to it, leading zeros apart. */
  lemma ParsedIsLinkName(name: string)
    requires ParseLink(name).Some?
    ensures |LinkFields(name)| == 2
    ensures LinkName(ParseLink(name).value) == name <==> forall x :: x in LinkFields(name) ==> Canonical(x)
  {
    hide ParseLink, LinkFields, Decimal, Value, Canonical;
    ParsedLinkParts(name);
    var parts, a := LinkFields(name), ParseLink(name).value;
    assert parts[0] in parts && parts[1] in parts;
    DecimalOfValue(parts[0]);
    DecimalOfValue(parts[1]);
    LinkParts(a);
    assert parts == [parts[0], parts[1]];
    assert LinkName(a) == name ==> parts == [Decimal(a.nsid), Decimal(a.ifindex)];
  }
}
