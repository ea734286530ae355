/** Release texts: their identifiers as in sections 9 and 11 of Semantic Versioning 2.0.0, their
    printed form, and the order of releases, versions with releases, and named versions. */
module Releases {
  import opened Wrappers
  import opened Text
  import opened Ordering

  /** One identifier as blang/semver parses it. */
  datatype Id = Num(num: nat) | Alpha(text: string)

  type Release = seq<Id>

  const UINT64_LIMIT: nat := 0x1_0000_0000_0000_0000

  predicate IsDigit(c: char) { '0' <= c <= '9' }

  predicate IsAlphanum(c: char) {
    IsDigit(c) || 'a' <= c <= 'z' || 'A' <= c <= 'Z' || c == '-'
  }

  predicate AllDigits(s: string) {
    forall c <- s :: IsDigit(c)
  }

  predicate LeadingZero(s: string) {
    |s| > 1 && s[0] == '0'
  }

  // ---------------------------------------------------------------- decimal text

  function Digit(n: nat): char
    requires n < 10
  {
    ('0' as int + n) as char
  }

  function Value(s: string): nat
    requires AllDigits(s)
  {
    if s == "" then 0
    else
      assert s[|s| - 1] in s;
      10 * Value(s[..|s| - 1]) + (s[|s| - 1] as int - '0' as int)
  }

  function Decimal(n: nat): string {
    if n < 10 then [Digit(n)] else Decimal(n / 10) + [Digit(n % 10)]
  }

  lemma {:induction false} DecimalReads(n: nat)
    ensures Decimal(n) != "" && AllDigits(Decimal(n)) && !LeadingZero(Decimal(n)) && Value(Decimal(n)) == n
    ensures n > 0 ==> Decimal(n)[0] != '0'
  {
    if n >= 10 {
      DecimalReads(n / 10);
      var s := Decimal(n);
      assert s[..|s| - 1] == Decimal(n / 10);
    } else {
      assert [Digit(n)][..0] == "";
    }
  }

  lemma {:induction false} ValuePositive(s: string)
    requires s != "" && AllDigits(s) && s[0] != '0'
    ensures Value(s) > 0
  {
    assert s[|s| - 1] in s && IsDigit(s[|s| - 1]);
    if |s| > 1 {
      ValuePositive(s[..|s| - 1]);
    } else {
      assert Value(s[..0]) == 0;
    }
  }

  lemma {:induction false} ReadsDecimal(s: string)
    requires s != "" && AllDigits(s) && !LeadingZero(s)
    ensures Decimal(Value(s)) == s
  {
    var init, last := s[..|s| - 1], s[|s| - 1];
    assert last in s && IsDigit(last) && s == init + [last];
    if init != "" {
      ReadsDecimal(init);
      ValuePositive(init);
    } else {
      assert Value(init) == 0;
    }
  }

  // ---------------------------------------------------------------- identifiers

  function ParseId(s: string): Option<Id> {
    if s == "" then None
    else if AllDigits(s) then
      if LeadingZero(s) || Value(s) >= UINT64_LIMIT then None else Some(Num(Value(s)))
    else if forall c <- s :: IsAlphanum(c) then Some(Alpha(s))
    else None
  }

  function PrintId(id: Id): string {
    match id
    case Num(n) => Decimal(n)
    case Alpha(text) => text
  }

  predicate Proper(id: Id) {
    match id
    case Num(n) => n < UINT64_LIMIT
    case Alpha(text) => text != "" && !AllDigits(text) && forall c <- text :: IsAlphanum(c)
  }

  lemma PrintParsedId(s: string)
    requires ParseId(s).Some?
    ensures Proper(ParseId(s).value) && PrintId(ParseId(s).value) == s
  {
    if AllDigits(s) {
      ReadsDecimal(s);
    }
  }

  lemma ParsePrintedId(id: Id)
    requires Proper(id)
    ensures ParseId(PrintId(id)) == Some(id) && '.' !in PrintId(id)
  {
    if id.Num? {
      DecimalReads(id.num);
    }
  }

  // ---------------------------------------------------------------- releases

  function ParseIds(parts: seq<string>): Option<Release> {
    if parts == [] then Some([])
    else if ParseId(parts[0]).None? || ParseIds(parts[1..]).None? then None
    else Some([ParseId(parts[0]).value] + ParseIds(parts[1..]).value)
  }

  function Parsed(s: string): Option<Release> {
    if s == "" then Some([]) else ParseIds(Split(s, '.'))
  }

  function PrintIds(r: Release): seq<string> {
    if r == [] then [] else [PrintId(r[0])] + PrintIds(r[1..])
  }

  function Printed(r: Release): string {
    Join(PrintIds(r), '.')
  }

  lemma {:induction false} ParseIdsNext(parts: seq<string>, i: nat)
    requires i < |parts|
    ensures ParseIds(parts[..i + 1])
            == if ParseIds(parts[..i]).None? || ParseId(parts[i]).None? then None
               else Some(ParseIds(parts[..i]).value + [ParseId(parts[i]).value])
  {
    if i == 0 {
      var one := parts[..1];
      assert one[0] == parts[0] && ParseIds(one[1..]) == Some([]) && ParseIds(parts[..0]) == Some([]);
      if ParseId(parts[0]).Some? {
        var id := ParseId(parts[0]).value;
        assert [id] + [] == [] + [id];
      }
    } else {
      ParseIdsNext(parts[1..], i - 1);
      assert parts[..i + 1][1..] == parts[1..][..i] && parts[..i][1..] == parts[1..][..i - 1];
      if ParseId(parts[0]).Some? && ParseId(parts[i]).Some? && ParseIds(parts[1..][..i - 1]).Some? {
        var first, rest, last := ParseId(parts[0]).value, ParseIds(parts[1..][..i - 1]).value, ParseId(parts[i]).value;
        assert [first] + (rest + [last]) == [first] + rest + [last];
      }
    }
  }

  lemma {:induction false} ParseIdsFails(parts: seq<string>, i: nat)
    requires i < |parts| && ParseId(parts[i]).None?
    ensures ParseIds(parts).None?
  {
    if i > 0 {
      ParseIdsFails(parts[1..], i - 1);
    }
  }

  method ParseRelease(s: string) returns (r: Option<Release>)
    ensures r == Parsed(s)
  {
    if s == "" {
      return Some([]);
    }
    var parts := Split(s, '.');
    var ids: Release := [];
    for i := 0 to |parts|
      invariant ParseIds(parts[..i]) == Some(ids)
    {
      var id := ParseId(parts[i]);
      if id.None? {
        ParseIdsFails(parts, i);
        return None;
      }
      ParseIdsNext(parts, i);
      ids := ids + [id.value];
    }
    assert parts[..|parts|] == parts;
    r := Some(ids);
  }

  lemma {:induction false} PrintIdsNext(r: Release, i: nat)
    requires i < |r|
    ensures PrintIds(r[..i + 1]) == PrintIds(r[..i]) + [PrintId(r[i])]
  {
    if i == 0 {
      assert r[..1] == [r[0]] && [r[0]][1..] == [];
    } else {
      PrintIdsNext(r[1..], i - 1);
      assert r[..i + 1][1..] == r[1..][..i] && r[..i][1..] == r[1..][..i - 1];
    }
  }

  method ReleaseString(r: Release) returns (s: string)
    ensures s == Printed(r)
  {
    if |r| == 0 {
      return "";
    }
    var parts: seq<string> := [];
    for i := 0 to |r|
      invariant parts == PrintIds(r[..i])
    {
      PrintIdsNext(r, i);
      parts := parts + [PrintId(r[i])];
    }
    assert r[..|r|] == r;
    s := Join(parts, '.');
  }

  lemma {:induction false} PrintParsedIds(parts: seq<string>)
    requires ParseIds(parts).Some?
    ensures PrintIds(ParseIds(parts).value) == parts
    ensures |ParseIds(parts).value| == |parts| && forall id <- ParseIds(parts).value :: Proper(id)
  {
    if parts != [] {
      PrintParsedId(parts[0]);
      PrintParsedIds(parts[1..]);
      var rest := ParseIds(parts[1..]).value;
      assert ([ParseId(parts[0]).value] + rest)[1..] == rest;
      assert parts == [parts[0]] + parts[1..];
    }
  }

  lemma {:induction false} ParsePrintedIds(r: Release)
    requires forall id <- r :: Proper(id)
    ensures ParseIds(PrintIds(r)) == Some(r)
    ensures |PrintIds(r)| == |r| && forall p <- PrintIds(r) :: p != "" && '.' !in p
  {
    if r != [] {
      assert r[0] in r && forall id <- r[1..] :: id in r;
      ParsePrintedId(r[0]);
      ParsePrintedIds(r[1..]);
      var rest := PrintIds(r[1..]);
      assert ([PrintId(r[0])] + rest)[1..] == rest;
      assert r == [r[0]] + r[1..];
    }
  }

  /** Main result: the printed form of a parsed release is the text it was parsed from. */
  lemma PrintParsed(s: string)
    requires Parsed(s).Some?
    ensures Printed(Parsed(s).value) == s && forall id <- Parsed(s).value :: Proper(id)
  {
    if s != "" {
      PrintParsedIds(Split(s, '.'));
      JoinSplit(s, '.');
    }
  }

  /** Main result: the printed form of a release parses back to it. */
  lemma ParsePrinted(r: Release)
    requires forall id <- r :: Proper(id)
    ensures Parsed(Printed(r)) == Some(r)
  {
    if r != [] {
      ParsePrintedIds(r);
      var parts := PrintIds(r);
      SplitJoin(parts, '.');
      assert parts[0] in parts;
      assert Printed(r) != "" by {
        assert Split("", '.') == [""];
      }
    }
  }

  /** Different texts are different releases: no two accepted texts parse alike. */
  lemma ParsedInjective(s: string, t: string)
    requires Parsed(s).Some? && Parsed(s) == Parsed(t)
    ensures s == t
  {
    PrintParsed(s);
    PrintParsed(t);
  }

  // ---------------------------------------------------------------- order

  function CompareIds(a: Id, b: Id): int {
    if a.Num? && b.Num? then (if a.num < b.num then -1 else if a.num > b.num then 1 else 0)
    else if a.Num? then -1
    else if b.Num? then 1
    else CompareStrings(a.text, b.text)
  }

  /** Left to right, and a proper prefix before what it is a prefix of. */
  function CompareReleases(a: Release, b: Release): int {
    if a == [] then (if b == [] then 0 else -1)
    else if b == [] then 1
    else if CompareIds(a[0], b[0]) != 0 then CompareIds(a[0], b[0])
    else CompareReleases(a[1..], b[1..])
  }

  lemma CompareIdsLaws(a: Id, b: Id)
    ensures CompareIds(a, b) == -CompareIds(b, a)
    ensures CompareIds(a, b) == 0 <==> a == b
  {
    if a.Alpha? && b.Alpha? {
      CompareStringsFlips(a.text, b.text);
      CompareStringsZero(a.text, b.text);
    }
  }

  lemma CompareIdsTransitive(a: Id, b: Id, c: Id)
    requires CompareIds(a, b) <= 0 && CompareIds(b, c) <= 0
    ensures CompareIds(a, c) <= 0
  {
    if a.Alpha? && b.Alpha? && c.Alpha? {
      CompareStringsTransitive(a.text, b.text, c.text);
    }
  }

  lemma {:induction false} CompareReleasesFlips(a: Release, b: Release)
    ensures CompareReleases(a, b) == -CompareReleases(b, a)
  {
    if a != [] && b != [] {
      CompareIdsLaws(a[0], b[0]);
      CompareReleasesFlips(a[1..], b[1..]);
    }
  }

  /** Main result: two releases compare as equal exactly when they are the same identifiers. */
  lemma {:induction false} CompareReleasesZero(a: Release, b: Release)
    ensures CompareReleases(a, b) == 0 <==> a == b
  {
    if a != [] && b != [] {
      CompareIdsLaws(a[0], b[0]);
      CompareReleasesZero(a[1..], b[1..]);
      assert a == [a[0]] + a[1..] && b == [b[0]] + b[1..];
    }
  }

  lemma {:induction false} CompareReleasesTransitive(a: Release, b: Release, c: Release)
    requires CompareReleases(a, b) <= 0 && CompareReleases(b, c) <= 0
    ensures CompareReleases(a, c) <= 0
  {
    if a != [] && b != [] && c != [] {
      CompareIdsLaws(a[0], b[0]);
      CompareIdsLaws(b[0], c[0]);
      CompareIdsLaws(a[0], c[0]);
      CompareIdsTransitive(a[0], b[0], c[0]);
      if a[0] == b[0] == c[0] {
        CompareReleasesTransitive(a[1..], b[1..], c[1..]);
      } else {
        CompareIdsStrict(a[0], b[0], c[0]);
      }
    }
  }

  lemma CompareIdsStrict(a: Id, b: Id, c: Id)
    requires CompareIds(a, b) <= 0 && CompareIds(b, c) <= 0 && !(a == b == c)
    ensures CompareIds(a, c) < 0
  {
    CompareIdsTransitive(a, b, c);
    CompareIdsLaws(a, c);
    CompareIdsLaws(a, b);
    CompareIdsLaws(b, c);
  }

  /** Main result: releases are totally ordered, the empty one first, and a release before every
      proper extension of it. */
  lemma ReleasesComparator()
    ensures Comparator(CompareReleases)
  {
    forall a, b ensures Sign(CompareReleases(a, b)) == -Sign(CompareReleases(b, a)) {
      CompareReleasesFlips(a, b);
    }
    forall a, b, c | CompareReleases(a, b) <= 0 && CompareReleases(b, c) <= 0
      ensures CompareReleases(a, c) <= 0
    {
      CompareReleasesTransitive(a, b, c);
    }
  }

  lemma {:induction false} PrefixFirst(a: Release, b: Release)
    requires a < b
    ensures CompareReleases(a, b) < 0
  {
    if a != [] {
      CompareIdsLaws(a[0], b[0]);
      PrefixFirst(a[1..], b[1..]);
    }
  }

  lemma {:induction false} CompareReleasesAt(a: Release, b: Release, i: nat)
    requires i <= |a| && i <= |b| && a[..i] == b[..i]
    ensures CompareReleases(a, b) == CompareReleases(a[i..], b[i..])
  {
    if i > 0 {
      assert a[0] == a[..i][0] == b[..i][0] == b[0];
      CompareIdsLaws(a[0], b[0]);
      assert a[1..][..i - 1] == a[..i][1..] && b[1..][..i - 1] == b[..i][1..];
      CompareReleasesAt(a[1..], b[1..], i - 1);
    }
  }

  /** Release.Compare. */
  method Compare(a: Release, b: Release) returns (c: int)
    ensures c == CompareReleases(a, b)
  {
    if a == [] && b == [] {
      return 0;
    }
    if a == [] {
      return -1;
    }
    if b == [] {
      return 1;
    }
    for i := 0 to if |a| < |b| then |a| else |b|
      invariant a[..i] == b[..i]
    {
      c := CompareIds(a[i], b[i]);
      CompareReleasesAt(a, b, i);
      if c != 0 {
        return c;
      }
      CompareIdsLaws(a[i], b[i]);
      assert a[..i + 1] == a[..i] + [a[i]] && b[..i + 1] == b[..i] + [b[i]];
    }
    CompareReleasesAt(a, b, if |a| < |b| then |a| else |b|);
    c := if |a| < |b| then -1 else if |a| > |b| then 1 else 0;
  }

  // ---------------------------------------------------------------- versions with releases

  datatype VersionRelease<V> = VersionRelease(version: V, release: Release)
  datatype NameVersionRelease<V> = NameVersionRelease(name: string, vr: VersionRelease<V>)

  function CompareVersionReleases<V>(versions: (V, V) -> int, a: VersionRelease<V>, b: VersionRelease<V>): int {
    if versions(a.version, b.version) != 0 then versions(a.version, b.version)
    else CompareReleases(a.release, b.release)
  }

  function CompareNames<V>(versions: (V, V) -> int, a: NameVersionRelease<V>, b: NameVersionRelease<V>): int {
    if CompareStrings(a.name, b.name) != 0 then CompareStrings(a.name, b.name)
    else CompareVersionReleases(versions, a.vr, b.vr)
  }

  lemma SameComparator<T(!new)>(a: (T, T) -> int, b: (T, T) -> int)
    requires Comparator(a) && forall x, y :: b(x, y) == a(x, y)
    ensures Comparator(b)
  {
    forall x, y ensures Sign(b(x, y)) == -Sign(b(y, x)) {
      assert Sign(a(x, y)) == -Sign(a(y, x));
    }
  }

  /** Whatever order versions have, releases refine it into an order, and ties are equal releases of
      tied versions. */
  lemma VersionReleasesComparator<V(!new)>(versions: (V, V) -> int)
    requires Comparator(versions)
    ensures Comparator((a: VersionRelease<V>, b: VersionRelease<V>) => CompareVersionReleases(versions, a, b))
    ensures forall a: VersionRelease<V>, b: VersionRelease<V> ::
              CompareVersionReleases(versions, a, b) == 0 <==>
                versions(a.version, b.version) == 0 && a.release == b.release
  {
    var byVersion := (a: VersionRelease<V>, b: VersionRelease<V>) => versions(a.version, b.version);
    var byRelease := (a: VersionRelease<V>, b: VersionRelease<V>) => CompareReleases(a.release, b.release);
    var version := (a: VersionRelease<V>) => a.version;
    var release := (a: VersionRelease<V>) => a.release;
    OnComparator(versions, version);
    SameComparator((a: VersionRelease<V>, b: VersionRelease<V>) => versions(version(a), version(b)), byVersion);
    ReleasesComparator();
    OnComparator(CompareReleases, release);
    SameComparator((a: VersionRelease<V>, b: VersionRelease<V>) => CompareReleases(release(a), release(b)), byRelease);
    ThenComparator(byVersion, byRelease);
    SameComparator(Then(byVersion, byRelease),
                   (a: VersionRelease<V>, b: VersionRelease<V>) => CompareVersionReleases(versions, a, b));
    forall a: VersionRelease<V>, b: VersionRelease<V>
      ensures CompareVersionReleases(versions, a, b) == 0 <==>
              versions(a.version, b.version) == 0 && a.release == b.release
    {
      CompareReleasesZero(a.release, b.release);
    }
  }

  lemma NamesComparator<V(!new)>(versions: (V, V) -> int)
    requires Comparator(versions)
    ensures Comparator((a: NameVersionRelease<V>, b: NameVersionRelease<V>) => CompareNames(versions, a, b))
  {
    var vrs := (a: VersionRelease<V>, b: VersionRelease<V>) => CompareVersionReleases(versions, a, b);
    var name := (a: NameVersionRelease<V>) => a.name;
    var vr := (a: NameVersionRelease<V>) => a.vr;
    var byName := (a: NameVersionRelease<V>, b: NameVersionRelease<V>) => CompareStrings(name(a), name(b));
    var byVr := (a: NameVersionRelease<V>, b: NameVersionRelease<V>) => vrs(vr(a), vr(b));
    StringsComparator();
    OnComparator(CompareStrings, name);
    SameComparator((a: NameVersionRelease<V>, b: NameVersionRelease<V>) => CompareStrings(name(a), name(b)), byName);
    VersionReleasesComparator(versions);
    SameComparator((a: VersionRelease<V>, b: VersionRelease<V>) => CompareVersionReleases(versions, a, b), vrs);
    OnComparator(vrs, vr);
    SameComparator((a: NameVersionRelease<V>, b: NameVersionRelease<V>) => vrs(vr(a), vr(b)), byVr);
    ThenComparator(byName, byVr);
    SameComparator(Then(byName, byVr),
                   (a: NameVersionRelease<V>, b: NameVersionRelease<V>) => CompareNames(versions, a, b));
  }
}
