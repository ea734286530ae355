/** The staging tables of an import: what each FBC blob inserts, and how a package is read back
    from them. */
module Staging {
  import opened Wrappers
  import opened Text
  import opened Seqs
  import opened Fbc
  import opened FbcMeaning

  /** One parsed FBC blob. */
  datatype Meta =
    | PackageMeta(name: string)
    | ChannelMeta(pkg: string, channel: Channel)
    | BundleMeta(bundle: BundleDecl)
    | DeprecationMeta(pkg: string, entries: seq<Deprecation>)

  datatype RawChannel = RawChannel(pkg: string, name: string)
  /** The skips column is one text: the skipped names joined by commas. */
  datatype RawEntry = RawEntry(pkg: string, channel: string, bundle: string, replaced: string, skips: string,
                               skipRange: string)
  datatype RawDeprecation = RawDeprecation(pkg: string, entry: Deprecation)

  /** Rows in insertion order. */
  datatype Raw = Raw(packages: seq<string>, channels: seq<RawChannel>, entries: seq<RawEntry>, bundles: seq<BundleDecl>,
                     deprecations: seq<RawDeprecation>)

  /** Empty staging tables. */
  const NOTHING := Raw([], [], [], [], [])

  // ---------------------------------------------------------------- the skips column

  function EncodeSkips(skips: seq<string>): string {
    Join(skips, ',')
  }

  function DecodeSkips(s: string): seq<string> {
    if s == "" then [] else Split(s, ',')
  }

  /** The lists of skips that come back as they went in: those without commas, except the list
      of one empty name, which is stored like no skips at all. */
  predicate SkipsSurvive(skips: seq<string>) {
    skips != [""] && forall s <- skips :: ',' !in s
  }

  lemma SkipsRoundTrip(skips: seq<string>)
    ensures DecodeSkips(EncodeSkips(skips)) == skips <==> SkipsSurvive(skips)
  {
    if skips != [] {
      SplitJoinExact(skips, ',');
      if |skips| > 1 {
        assert |Join(skips, ',')| > 0;
      }
    }
  }

  /** One empty name comes back as no name, and a name with a comma as two. */
  lemma SkipsLost()
    ensures DecodeSkips(EncodeSkips([""])) == [] && DecodeSkips(EncodeSkips(["a,b"])) == ["a", "b"]
  {
    SplitFirst("a", "b", ',');
    SplitOne("b", ',');
    assert "a" + [','] + "b" == "a,b";
  }

  function StageEntry(pkg: string, ch: string, e: ChannelEntry): RawEntry {
    RawEntry(pkg, ch, e.name, e.replaced, EncodeSkips(e.skips), e.skipRange)
  }

  function ReadEntry(r: RawEntry): ChannelEntry {
    ChannelEntry(r.bundle, r.replaced, DecodeSkips(r.skips), r.skipRange)
  }

  // ---------------------------------------------------------------- inserts and their keys

  predicate EntryTaken(entries: seq<RawEntry>, pkg: string, ch: string, bundle: string) {
    exists r <- entries :: r.pkg == pkg && r.channel == ch && r.bundle == bundle
  }

  function InsertEntries(raw: Raw, pkg: string, ch: string, entries: seq<ChannelEntry>): Outcome<Raw>
    decreases |entries|
  {
    if entries == [] then Outcome(true, raw)
    else if EntryTaken(raw.entries, pkg, ch, entries[0].name) then Outcome(false, raw)
    else InsertEntries(raw.(entries := raw.entries + [StageEntry(pkg, ch, entries[0])]), pkg, ch, entries[1..])
  }

  function InsertDeprecations(raw: Raw, pkg: string, ds: seq<Deprecation>): Outcome<Raw>
    decreases |ds|
  {
    if ds == [] then Outcome(true, raw)
    else if ds[0].message == "" then Outcome(false, raw)
    else InsertDeprecations(raw.(deprecations := raw.deprecations + [RawDeprecation(pkg, ds[0])]), pkg, ds[1..])
  }

  /** The insert function a blob is parsed into; false is a key or check violation. */
  function Insert(raw: Raw, m: Meta): Outcome<Raw> {
    match m
    case PackageMeta(name) =>
      if name in raw.packages then Outcome(false, raw) else Outcome(true, raw.(packages := raw.packages + [name]))
    case ChannelMeta(pkg, ch) =>
      if RawChannel(pkg, ch.name) in raw.channels then Outcome(false, raw)
      else InsertEntries(raw.(channels := raw.channels + [RawChannel(pkg, ch.name)]), pkg, ch.name, ch.entries)
    case BundleMeta(b) =>
      if exists r <- raw.bundles :: r.pkg == b.pkg && r.name == b.name then Outcome(false, raw)
      else Outcome(true, raw.(bundles := raw.bundles + [b]))
    case DeprecationMeta(pkg, ds) => InsertDeprecations(raw, pkg, ds)
  }

  function InsertAll(raw: Raw, metas: seq<Meta>): Outcome<Raw>
    decreases |metas|
  {
    if metas == [] then Outcome(true, raw)
    else
      var r := Insert(raw, metas[0]);
      if r.ok then InsertAll(r.state, metas[1..]) else r
  }

  // ---------------------------------------------------------------- reading a package back

  function EntriesOf(entries: seq<RawEntry>, pkg: string, ch: string): seq<ChannelEntry> {
    if entries == [] then []
    else (if entries[0].pkg == pkg && entries[0].channel == ch then [ReadEntry(entries[0])] else []) +
         EntriesOf(entries[1..], pkg, ch)
  }

  function ChannelsOf(raw: Raw, channels: seq<RawChannel>, pkg: string): seq<Channel> {
    if channels == [] then []
    else (if channels[0].pkg == pkg
         then [Channel(channels[0].name, EntriesOf(raw.entries, pkg, channels[0].name))] else [])
         + ChannelsOf(raw, channels[1..], pkg)
  }

  function BundlesIn(bundles: seq<BundleDecl>, pkg: string): seq<BundleDecl> {
    if bundles == [] then [] else (if bundles[0].pkg == pkg then [bundles[0]] else []) + BundlesIn(bundles[1..], pkg)
  }

  function DeprecationsOf(ds: seq<RawDeprecation>, pkg: string): seq<Deprecation> {
    if ds == [] then [] else (if ds[0].pkg == pkg then [ds[0].entry] else []) + DeprecationsOf(ds[1..], pkg)
  }

  function ReadPackage(raw: Raw, pkg: string): Package {
    Package(pkg, BundlesIn(raw.bundles, pkg), ChannelsOf(raw, raw.channels, pkg), DeprecationsOf(raw.deprecations, pkg))
  }

  /** The channel entries accessor: a scan of the rows of one channel. */
  method Entries(raw: Raw, pkg: string, ch: string) returns (entries: seq<ChannelEntry>)
    ensures entries == EntriesOf(raw.entries, pkg, ch)
  {
    entries := [];
    for i := 0 to |raw.entries|
      invariant entries + EntriesOf(raw.entries[i..], pkg, ch) == EntriesOf(raw.entries, pkg, ch)
    {
      var r := raw.entries[i];
      assert raw.entries[i..][1..] == raw.entries[i + 1..];
      if r.pkg == pkg && r.channel == ch {
        var skips := if r.skips != "" then Split(r.skips, ',') else [];
        var e := ChannelEntry(r.bundle, r.replaced, skips, r.skipRange);
        assert entries + ([e] + EntriesOf(raw.entries[i + 1..], pkg, ch)) ==
          entries + [e] + EntriesOf(raw.entries[i + 1..], pkg, ch);
        entries := entries + [e];
      } else {
        assert [] + EntriesOf(raw.entries[i + 1..], pkg, ch) == EntriesOf(raw.entries[i + 1..], pkg, ch);
      }
    }
  }

  method Channels(raw: Raw, pkg: string) returns (channels: seq<Channel>)
    ensures channels == ChannelsOf(raw, raw.channels, pkg)
  {
    channels := [];
    for i := 0 to |raw.channels|
      invariant channels + ChannelsOf(raw, raw.channels[i..], pkg) == ChannelsOf(raw, raw.channels, pkg)
    {
      var r := raw.channels[i];
      assert raw.channels[i..][1..] == raw.channels[i + 1..];
      ghost var rest := ChannelsOf(raw, raw.channels[i + 1..], pkg);
      if r.pkg == pkg {
        var entries := Entries(raw, pkg, r.name);
        var ch := Channel(r.name, entries);
        assert ChannelsOf(raw, raw.channels[i..], pkg) == [ch] + rest;
        assert channels + ([ch] + rest) == channels + [ch] + rest;
        channels := channels + [ch];
      } else {
        assert [] + rest == rest;
      }
    }
  }

  // ---------------------------------------------------------------- what the keys guarantee

  ghost predicate Keyed(raw: Raw) {
    && Distinct(raw.packages)
    && Distinct(raw.channels)
    && (forall i, j | 0 <= i < j < |raw.entries| :: !SameKey(raw.entries[i], raw.entries[j]))
    && (forall r <- raw.entries :: RawChannel(r.pkg, r.channel) in raw.channels)
    && (forall i, j | 0 <= i < j < |raw.bundles| :: !SameDecl(raw.bundles[i], raw.bundles[j]))
    && (forall d <- raw.deprecations :: d.entry.message != "")
  }

  predicate SameKey(a: RawEntry, b: RawEntry) {
    a.pkg == b.pkg && a.channel == b.channel && a.bundle == b.bundle
  }

  predicate SameDecl(a: BundleDecl, b: BundleDecl) {
    a.pkg == b.pkg && a.name == b.name
  }

  lemma {:induction false} EntriesAppend(a: seq<RawEntry>, b: seq<RawEntry>, pkg: string, ch: string)
    ensures EntriesOf(a + b, pkg, ch) == EntriesOf(a, pkg, ch) + EntriesOf(b, pkg, ch)
  {
    if a == [] {
      assert a + b == b;
    } else {
      assert (a + b)[0] == a[0] && (a + b)[1..] == a[1..] + b;
      EntriesAppend(a[1..], b, pkg, ch);
    }
  }

  function ReadBack(entries: seq<ChannelEntry>): seq<ChannelEntry> {
    seq(|entries|, i requires 0 <= i < |entries| => entries[i].(skips := DecodeSkips(EncodeSkips(entries[i].skips))))
  }

  lemma EntriesAppendOne(a: seq<RawEntry>, r: RawEntry, p: string, c: string)
    ensures EntriesOf(a + [r], p, c) == EntriesOf(a, p, c) + if r.pkg == p && r.channel == c then [ReadEntry(r)] else []
  {
    EntriesAppend(a, [r], p, c);
    assert [r][1..] == [];
  }

  lemma ReadBackCons(pkg: string, ch: string, entries: seq<ChannelEntry>)
    requires entries != []
    ensures ReadBack(entries) == [ReadEntry(StageEntry(pkg, ch, entries[0]))] + ReadBack(entries[1..])
  {
  }

  lemma {:induction false} InsertEntriesFrame(raw: Raw, pkg: string, ch: string, entries: seq<ChannelEntry>)
    ensures var r := InsertEntries(raw, pkg, ch, entries).state; r == raw.(entries := r.entries)
    decreases |entries|
  {
    if entries != [] && !EntryTaken(raw.entries, pkg, ch, entries[0].name) {
      InsertEntriesFrame(raw.(entries := raw.entries + [StageEntry(pkg, ch, entries[0])]), pkg, ch, entries[1..]);
    }
  }

  lemma {:induction false} InsertEntriesIs(raw: Raw, pkg: string, ch: string, entries: seq<ChannelEntry>, p: string,
                                           c: string)
    requires InsertEntries(raw, pkg, ch, entries).ok
    ensures var r := InsertEntries(raw, pkg, ch, entries).state;
            && r == raw.(entries := r.entries)
            && EntriesOf(r.entries, p, c) ==
               EntriesOf(raw.entries, p, c) + if p == pkg && c == ch then ReadBack(entries) else []
    decreases |entries|
  {
    InsertEntriesFrame(raw, pkg, ch, entries);
    if entries == [] {
      assert ReadBack(entries) == [];
    } else {
      var r := StageEntry(pkg, ch, entries[0]);
      var before, rest := EntriesOf(raw.entries, p, c), ReadBack(entries[1..]);
      InsertEntriesIs(raw.(entries := raw.entries + [r]), pkg, ch, entries[1..], p, c);
      EntriesAppendOne(raw.entries, r, p, c);
      ReadBackCons(pkg, ch, entries);
      if p == pkg && c == ch {
        ConcatAssociates(before, [ReadEntry(r)], rest);
      } else {
        assert (before + []) + [] == before + [];
      }
    }
  }

  lemma {:induction false} InsertEntriesKeyed(raw: Raw, pkg: string, ch: string, entries: seq<ChannelEntry>)
    requires Keyed(raw) && RawChannel(pkg, ch) in raw.channels
    ensures Keyed(InsertEntries(raw, pkg, ch, entries).state)
    decreases |entries|
  {
    if entries != [] && !EntryTaken(raw.entries, pkg, ch, entries[0].name) {
      assert forall r <- raw.entries :: !SameKey(r, StageEntry(pkg, ch, entries[0]));
      InsertEntriesKeyed(raw.(entries := raw.entries + [StageEntry(pkg, ch, entries[0])]), pkg, ch, entries[1..]);
    }
  }

  lemma {:induction false} InsertDeprecationsKeyed(raw: Raw, pkg: string, ds: seq<Deprecation>)
    requires Keyed(raw)
    ensures var r := InsertDeprecations(raw, pkg, ds).state; Keyed(r) && r == raw.(deprecations := r.deprecations)
    decreases |ds|
  {
    if ds != [] && ds[0].message != "" {
      InsertDeprecationsKeyed(raw.(deprecations := raw.deprecations + [RawDeprecation(pkg, ds[0])]), pkg, ds[1..]);
    }
  }

  lemma InsertKeyed(raw: Raw, m: Meta)
    requires Keyed(raw)
    ensures Keyed(Insert(raw, m).state)
  {
    match m
    case PackageMeta(name) => if name !in raw.packages { DistinctAppend(raw.packages, [name]); }
    case ChannelMeta(pkg, ch) =>
      if RawChannel(pkg, ch.name) !in raw.channels {
        DistinctAppend(raw.channels, [RawChannel(pkg, ch.name)]);
        InsertEntriesKeyed(raw.(channels := raw.channels + [RawChannel(pkg, ch.name)]), pkg, ch.name, ch.entries);
      }
    case BundleMeta(b) =>
    case DeprecationMeta(pkg, ds) => InsertDeprecationsKeyed(raw, pkg, ds);
  }

  /** The staged form of a channel: what the accessors will say of it. */
  ghost predicate Stored(raw: Raw, pkg: string, ch: Channel) {
    RawChannel(pkg, ch.name) in raw.channels && EntriesOf(raw.entries, pkg, ch.name) == ReadBack(ch.entries)
  }

  lemma {:induction false} NoEntries(entries: seq<RawEntry>, pkg: string, ch: string)
    requires forall r <- entries :: !(r.pkg == pkg && r.channel == ch)
    ensures EntriesOf(entries, pkg, ch) == []
  {
    if entries != [] {
      NoEntries(entries[1..], pkg, ch);
    }
  }

  lemma InsertStores(raw: Raw, m: Meta)
    requires Keyed(raw) && m.ChannelMeta? && Insert(raw, m).ok
    ensures Stored(Insert(raw, m).state, m.pkg, m.channel)
  {
    var raw' := raw.(channels := raw.channels + [RawChannel(m.pkg, m.channel.name)]);
    NoEntries(raw.entries, m.pkg, m.channel.name);
    InsertEntriesIs(raw', m.pkg, m.channel.name, m.channel.entries, m.pkg, m.channel.name);
  }

  lemma InsertKeepsStored(raw: Raw, m: Meta, pkg: string, ch: Channel)
    requires Keyed(raw) && Stored(raw, pkg, ch) && Insert(raw, m).ok
    ensures Stored(Insert(raw, m).state, pkg, ch)
  {
    match m
    case PackageMeta(name) =>
    case ChannelMeta(q, c) =>
      InsertEntriesIs(raw.(channels := raw.channels + [RawChannel(q, c.name)]), q, c.name, c.entries, pkg, ch.name);
    case BundleMeta(b) =>
    case DeprecationMeta(q, ds) => InsertDeprecationsKeyed(raw, q, ds);
  }

  /** Main result: whatever the order of the blobs, once all are staged every declared channel reads
      back with its entries, each with its skips joined and split again. */
  lemma {:induction false} StagingKeepsChannels(raw: Raw, metas: seq<Meta>)
    requires Keyed(raw) && InsertAll(raw, metas).ok
    ensures var r := InsertAll(raw, metas).state;
            && Keyed(r)
            && (forall m <- metas | m.ChannelMeta? :: Stored(r, m.pkg, m.channel))
            && (forall pkg, ch :: Stored(raw, pkg, ch) ==> Stored(r, pkg, ch))
    decreases |metas|
  {
    if metas != [] {
      var m, raw' := metas[0], Insert(raw, metas[0]).state;
      InsertKeyed(raw, m);
      forall pkg, ch | Stored(raw, pkg, ch) ensures Stored(raw', pkg, ch) {
        InsertKeepsStored(raw, m, pkg, ch);
      }
      if m.ChannelMeta? {
        InsertStores(raw, m);
      }
      StagingKeepsChannels(raw', metas[1..]);
    }
  }

  /** Channels whose skips survive are read back word for word. */
  lemma DeclaredReadsBack(raw: Raw, metas: seq<Meta>, m: Meta)
    requires Keyed(raw) && InsertAll(raw, metas).ok && m in metas && m.ChannelMeta?
    requires forall e <- m.channel.entries :: SkipsSurvive(e.skips)
    ensures m.channel in ReadPackage(InsertAll(raw, metas).state, m.pkg).channels
  {
    var r := InsertAll(raw, metas).state;
    StagingKeepsChannels(raw, metas);
    forall i | 0 <= i < |m.channel.entries|
      ensures ReadBack(m.channel.entries)[i] == m.channel.entries[i]
    {
      SkipsRoundTrip(m.channel.entries[i].skips);
    }
    assert ReadBack(m.channel.entries) == m.channel.entries;
    ChannelIsRead(r, r.channels, m.pkg, m.channel.name);
  }

  lemma {:induction false} ChannelIsRead(raw: Raw, channels: seq<RawChannel>, pkg: string, name: string)
    requires RawChannel(pkg, name) in channels
    ensures Channel(name, EntriesOf(raw.entries, pkg, name)) in ChannelsOf(raw, channels, pkg)
  {
    if channels[0] != RawChannel(pkg, name) {
      ChannelIsRead(raw, channels[1..], pkg, name);
    }
  }

  // ---------------------------------------------------------------- a read package is well keyed

  lemma {:induction false} ReadEntriesUnique(entries: seq<RawEntry>, pkg: string, ch: string)
    requires forall i, j | 0 <= i < j < |entries| :: !SameKey(entries[i], entries[j])
    ensures UniqueEntries(EntriesOf(entries, pkg, ch))
    ensures forall e <- EntriesOf(entries, pkg, ch) :: EntryTaken(entries, pkg, ch, e.name)
  {
    if entries != [] {
      ReadEntriesUnique(entries[1..], pkg, ch);
      var rest := EntriesOf(entries[1..], pkg, ch);
      assert forall r <- entries[1..] :: r in entries && !SameKey(entries[0], r);
      assert entries[0] in entries;
      forall e <- rest
        ensures EntryTaken(entries, pkg, ch, e.name)
        ensures entries[0].pkg == pkg && entries[0].channel == ch ==> e.name != entries[0].bundle
      {
        var r :| r in entries[1..] && r.pkg == pkg && r.channel == ch && r.bundle == e.name;
      }
    }
  }

  lemma {:induction false} ReadChannelsUnique(raw: Raw, channels: seq<RawChannel>, pkg: string)
    requires Keyed(raw) && Distinct(channels)
    ensures UniqueChannels(ChannelsOf(raw, channels, pkg))
    ensures forall c <- ChannelsOf(raw, channels, pkg) :: RawChannel(pkg, c.name) in channels
  {
    if channels != [] {
      ReadChannelsUnique(raw, channels[1..], pkg);
      ReadEntriesUnique(raw.entries, pkg, channels[0].name);
      assert channels[0] !in channels[1..];
    }
  }

  lemma {:induction false} ReadDeprecations(ds: seq<RawDeprecation>, pkg: string)
    requires forall d <- ds :: d.entry.message != ""
    ensures forall d <- DeprecationsOf(ds, pkg) :: d.message != ""
  {
    if ds != [] {
      ReadDeprecations(ds[1..], pkg);
    }
  }

  lemma {:induction false} ReadBundlesUnique(bundles: seq<BundleDecl>, pkg: string)
    requires forall i, j | 0 <= i < j < |bundles| :: !SameDecl(bundles[i], bundles[j])
    ensures UniqueDecls(BundlesIn(bundles, pkg))
    ensures forall b <- BundlesIn(bundles, pkg) :: b in bundles && b.pkg == pkg
  {
    if bundles != [] {
      ReadBundlesUnique(bundles[1..], pkg);
      assert forall b <- bundles[1..] :: !SameDecl(bundles[0], b);
    }
  }

  /** The hypothesis the import results make about a package holds of every staged one. */
  lemma ReadIsStaged(raw: Raw, pkg: string)
    requires Keyed(raw)
    ensures Staged(ReadPackage(raw, pkg))
  {
    ReadChannelsUnique(raw, raw.channels, pkg);
    ReadBundlesUnique(raw.bundles, pkg);
    ReadDeprecations(raw.deprecations, pkg);
  }
}
