/**
 * The domain values the application-store protocol carries
 * (utility/ola_protocol.hpp): applications, builds with their
 * configurations, shortcuts and media, store listings, and the packed
 * `AppItemEntry`; the fetch-option bitset, the configuration flag names and
 * the item state and flag names.
 */
module OlaProtocol {
  import opened Wrappers
  import opened Wire

  // ---------------------------------------------------------------------------
  // Records

  datatype Application = Application(name_: string)

  datatype Shortcut = Shortcut(name_: string, command_: string, arguments_: string, run_folder_: string, icon_: string)

  datatype MediaEntry = MediaEntry(thumbnail_path_: string, path_: string)

  datatype Media = Media(name_: string, entry_vec_: seq<MediaEntry>)

  type StringPair = (string, string)

  datatype Configuration = Configuration(
    name_: string, directory_: string, flags_: bv64, os_vec_: seq<string>, mount_vec_: seq<StringPair>,
    exe_vec_: seq<string>, shortcut_vec_: seq<Shortcut>, property_vec_: seq<StringPair>, media_: Media)

  datatype Build = Build(
    name_: string, tag_: string, dictionary_dq_: seq<StringPair>, property_vec_: seq<StringPair>,
    configuration_vec_: seq<Configuration>)

  datatype ListStoreNode = ListStoreNode(name_: string, size_: u64)

  datatype ListApplicationItem = ListApplicationItem(id_: string, unique_: string, name_: string)

  /** The `static constexpr uint32_t version` of every record that has one. */
  const RecordVersion: u32 := 1

  // ---------------------------------------------------------------------------
  // Structural equality, as each `operator==` spells it out

  predicate ShortcutEq(a: Shortcut, b: Shortcut)
    ensures ShortcutEq(a, b) <==> a == b
  {
    a.name_ == b.name_ && a.command_ == b.command_ && a.run_folder_ == b.run_folder_
    && a.icon_ == b.icon_ && a.arguments_ == b.arguments_
  }

  predicate EntryEq(a: MediaEntry, b: MediaEntry)
    ensures EntryEq(a, b) <==> a == b
  {
    a.thumbnail_path_ == b.thumbnail_path_ && a.path_ == b.path_
  }

  /** `std::vector<Entry>::operator==`: equal lengths and `Entry::operator==` element by element. */
  predicate EntriesEq(a: seq<MediaEntry>, b: seq<MediaEntry>)
    ensures a == b ==> EntriesEq(a, b)
  {
    |a| == |b| && forall i :: 0 <= i < |a| ==> EntryEq(a[i], b[i])
  }

  predicate MediaEq(a: Media, b: Media)
    ensures a == b ==> MediaEq(a, b)
  {
    a.name_ == b.name_ && EntriesEq(a.entry_vec_, b.entry_vec_)
  }

  predicate ShortcutsEq(a: seq<Shortcut>, b: seq<Shortcut>)
    ensures a == b ==> ShortcutsEq(a, b)
  {
    |a| == |b| && forall i :: 0 <= i < |a| ==> ShortcutEq(a[i], b[i])
  }

  predicate ConfigurationEq(a: Configuration, b: Configuration)
    ensures a == b ==> ConfigurationEq(a, b)
  {
    && a.name_ == b.name_ && a.directory_ == b.directory_ && a.flags_ == b.flags_
    && a.os_vec_ == b.os_vec_ && a.mount_vec_ == b.mount_vec_ && a.exe_vec_ == b.exe_vec_
    && ShortcutsEq(a.shortcut_vec_, b.shortcut_vec_) && a.property_vec_ == b.property_vec_
    && MediaEq(a.media_, b.media_)
  }

  predicate ConfigurationsEq(a: seq<Configuration>, b: seq<Configuration>)
    ensures a == b ==> ConfigurationsEq(a, b)
  {
    |a| == |b| && forall i :: 0 <= i < |a| ==> ConfigurationEq(a[i], b[i])
  }

  predicate BuildEq(a: Build, b: Build)
    ensures a == b ==> BuildEq(a, b)
  {
    && a.name_ == b.name_ && a.tag_ == b.tag_ && ConfigurationsEq(a.configuration_vec_, b.configuration_vec_)
    && a.property_vec_ == b.property_vec_ && a.dictionary_dq_ == b.dictionary_dq_
  }

  lemma ShortcutEqIsEquality(a: Shortcut, b: Shortcut)
    ensures ShortcutEq(a, b) <==> a == b
  {
  }

  lemma MediaEqIsEquality(a: Media, b: Media)
    ensures MediaEq(a, b) <==> a == b
  {
    if MediaEq(a, b) {
      assert a.entry_vec_ == b.entry_vec_;
    }
  }

  /** Every field of a `Configuration` takes part in `operator==`, so it is equality. */
  lemma ConfigurationEqIsEquality(a: Configuration, b: Configuration)
    ensures ConfigurationEq(a, b) <==> a == b
  {
    if ConfigurationEq(a, b) {
      MediaEqIsEquality(a.media_, b.media_);
      assert a.shortcut_vec_ == b.shortcut_vec_;
    } else if a == b {
      MediaEqIsEquality(a.media_, b.media_);
    }
  }

  /** Every field of a `Build` takes part in `operator==`, so it is equality. */
  lemma BuildEqIsEquality(a: Build, b: Build)
    ensures BuildEq(a, b) <==> a == b
  {
    forall i | 0 <= i < |a.configuration_vec_| && i < |b.configuration_vec_|
      ensures ConfigurationEq(a.configuration_vec_[i], b.configuration_vec_[i])
          <==> a.configuration_vec_[i] == b.configuration_vec_[i]
    {
      ConfigurationEqIsEquality(a.configuration_vec_[i], b.configuration_vec_[i]);
    }
    if BuildEq(a, b) {
      assert a.configuration_vec_ == b.configuration_vec_;
    }
  }

  /** `size_t`, the type of `size()`. */
  function SizeT(n: nat): bv64
  {
    (n % 0x1_0000_0000_0000_0000) as bv64
  }

  /** `Media::computeCheck`: the name length xor the entry count. */
  function MediaCheck(m: Media): (c: bv64)
    ensures c == 0 <==> SizeT(|m.name_|) == SizeT(|m.entry_vec_|)
    ensures c ^ SizeT(|m.entry_vec_|) == SizeT(|m.name_|)
  {
    var a := SizeT(|m.name_|);
    var b := SizeT(|m.entry_vec_|);
    XorCancels(a, b);
    a ^ b
  }

  lemma XorCancels(a: bv64, b: bv64)
    ensures a ^ b == 0 <==> a == b
    ensures (a ^ b) ^ b == a
  {
  }

  // ---------------------------------------------------------------------------
  // The serialization-v2 walk of each record, as a `Wire.Value`

  const ApplicationKind: Kind := RecordOf([Str])
  const ShortcutKind: Kind := RecordOf([Str, Str, Str, Str, Str])
  const MediaEntryKind: Kind := RecordOf([Str, Str])
  const MediaKind: Kind := RecordOf([Str, ListOf(MediaEntryKind)])
  const ConfigurationKind: Kind :=
    RecordOf([Str, Str, UInt64, Strings, StringPairs, Strings, ListOf(ShortcutKind), StringPairs, MediaKind])
  const BuildKind: Kind := RecordOf([Str, Str, StringPairs, StringPairs, ListOf(ConfigurationKind)])
  const AppItemEntryKind: Kind := RecordOf([Str, UInt64])
  const ListStoreNodeKind: Kind := RecordOf([Str, UInt64])
  const ListApplicationItemKind: Kind := RecordOf([Str, Str, Str])

  function StringsValue(ss: seq<string>): (v: Value)
    ensures HasKind(v, Strings)
  {
    List(seq(|ss|, i requires 0 <= i < |ss| => Text(ss[i])))
  }

  function StringsOf(v: Value): seq<string>
    requires HasKind(v, Strings)
  {
    seq(|v.items|, i requires 0 <= i < |v.items| => v.items[i].s)
  }

  function PairsValue(ps: seq<StringPair>): (v: Value)
    ensures HasKind(v, StringPairs)
  {
    List(seq(|ps|, i requires 0 <= i < |ps| => Pair(Text(ps[i].0), Text(ps[i].1))))
  }

  function PairsOf(v: Value): seq<StringPair>
    requires HasKind(v, StringPairs)
  {
    seq(|v.items|, i requires 0 <= i < |v.items| => (v.items[i].first.s, v.items[i].second.s))
  }

  function ApplicationValue(a: Application): (v: Value)
    ensures HasKind(v, ApplicationKind)
  {
    Record([Text(a.name_)])
  }

  function ApplicationOf(v: Value): Application
    requires HasKind(v, ApplicationKind)
  {
    Application(v.fields[0].s)
  }

  function ShortcutValue(s: Shortcut): (v: Value)
    ensures HasKind(v, ShortcutKind)
  {
    Record([Text(s.name_), Text(s.command_), Text(s.arguments_), Text(s.run_folder_), Text(s.icon_)])
  }

  function ShortcutOf(v: Value): Shortcut
    requires HasKind(v, ShortcutKind)
  {
    Shortcut(v.fields[0].s, v.fields[1].s, v.fields[2].s, v.fields[3].s, v.fields[4].s)
  }

  function MediaEntryValue(e: MediaEntry): (v: Value)
    ensures HasKind(v, MediaEntryKind)
  {
    Record([Text(e.thumbnail_path_), Text(e.path_)])
  }

  function MediaEntryOf(v: Value): MediaEntry
    requires HasKind(v, MediaEntryKind)
  {
    MediaEntry(v.fields[0].s, v.fields[1].s)
  }

  function MediaValue(m: Media): (v: Value)
    ensures HasKind(v, MediaKind)
  {
    Record([Text(m.name_), List(seq(|m.entry_vec_|, i requires 0 <= i < |m.entry_vec_| => MediaEntryValue(m.entry_vec_[i])))])
  }

  function MediaOf(v: Value): Media
    requires HasKind(v, MediaKind)
  {
    assert v.Record? && |v.fields| == 2 && HasKind(v.fields[0], Str) && HasKind(v.fields[1], ListOf(MediaEntryKind));
    var es := v.fields[1].items;
    Media(v.fields[0].s, seq(|es|, i requires 0 <= i < |es| => MediaEntryOf(es[i])))
  }

  function ConfigurationValue(c: Configuration): (v: Value)
    ensures HasKind(v, ConfigurationKind)
  {
    var scs := c.shortcut_vec_;
    Record([ Text(c.name_), Text(c.directory_), Num(c.flags_ as int), StringsValue(c.os_vec_),
             PairsValue(c.mount_vec_), StringsValue(c.exe_vec_),
             List(seq(|scs|, i requires 0 <= i < |scs| => ShortcutValue(scs[i]))),
             PairsValue(c.property_vec_), MediaValue(c.media_) ])
  }

  function ConfigurationOf(v: Value): Configuration
    requires HasKind(v, ConfigurationKind)
  {
    ConfigurationFields(v);
    var f := v.fields;
    var scs := f[6].items;
    Configuration(f[0].s, f[1].s, f[2].n as bv64, StringsOf(f[3]), PairsOf(f[4]), StringsOf(f[5]),
                  seq(|scs|, i requires 0 <= i < |scs| => ShortcutOf(scs[i])), PairsOf(f[7]), MediaOf(f[8]))
  }

  lemma ConfigurationFields(v: Value)
    requires HasKind(v, ConfigurationKind)
    ensures v.Record? && |v.fields| == 9
    ensures HasKind(v.fields[0], Str) && HasKind(v.fields[1], Str) && HasKind(v.fields[2], UInt64)
    ensures HasKind(v.fields[3], Strings) && HasKind(v.fields[4], StringPairs) && HasKind(v.fields[5], Strings)
    ensures HasKind(v.fields[6], ListOf(ShortcutKind)) && HasKind(v.fields[7], StringPairs)
    ensures HasKind(v.fields[8], MediaKind)
  {
    var ks := ConfigurationKind.fields;
    assert ks == [Str, Str, UInt64, Strings, StringPairs, Strings, ListOf(ShortcutKind), StringPairs, MediaKind];
    RecordField(v, ks, 0);
    RecordField(v, ks, 1);
    RecordField(v, ks, 2);
    RecordField(v, ks, 3);
    RecordField(v, ks, 4);
    RecordField(v, ks, 5);
    RecordField(v, ks, 6);
    RecordField(v, ks, 7);
    RecordField(v, ks, 8);
  }

  lemma RecordField(v: Value, ks: seq<Kind>, i: nat)
    requires HasKind(v, RecordOf(ks)) && i < |ks|
    ensures v.Record? && |v.fields| == |ks| && HasKind(v.fields[i], ks[i])
  {
  }

  function BuildValue(b: Build): (v: Value)
    ensures HasKind(v, BuildKind)
  {
    var cs := b.configuration_vec_;
    Record([ Text(b.name_), Text(b.tag_), PairsValue(b.dictionary_dq_), PairsValue(b.property_vec_),
             List(seq(|cs|, i requires 0 <= i < |cs| => ConfigurationValue(cs[i]))) ])
  }

  function BuildOf(v: Value): Build
    requires HasKind(v, BuildKind)
  {
    assert v.Record? && |v.fields| == 5;
    var f := v.fields;
    assert HasKind(f[0], Str) && HasKind(f[1], Str) && HasKind(f[2], StringPairs) && HasKind(f[3], StringPairs);
    assert HasKind(f[4], ListOf(ConfigurationKind));
    var cs := f[4].items;
    Build(f[0].s, f[1].s, PairsOf(f[2]), PairsOf(f[3]), seq(|cs|, i requires 0 <= i < |cs| => ConfigurationOf(cs[i])))
  }

  function ListStoreNodeValue(n: ListStoreNode): (v: Value)
    ensures HasKind(v, ListStoreNodeKind)
  {
    Record([Text(n.name_), Num(n.size_)])
  }

  function ListStoreNodeOf(v: Value): ListStoreNode
    requires HasKind(v, ListStoreNodeKind)
  {
    assert v.Record? && |v.fields| == 2 && HasKind(v.fields[0], Str) && HasKind(v.fields[1], UInt64);
    ListStoreNode(v.fields[0].s, v.fields[1].n)
  }

  function ListApplicationItemValue(a: ListApplicationItem): (v: Value)
    ensures HasKind(v, ListApplicationItemKind)
  {
    Record([Text(a.id_), Text(a.unique_), Text(a.name_)])
  }

  function ListApplicationItemOf(v: Value): ListApplicationItem
    requires HasKind(v, ListApplicationItemKind)
  {
    ListApplicationItem(v.fields[0].s, v.fields[1].s, v.fields[2].s)
  }

  /** What a record's walk writes, the same walk reads back; and every value of the record's kind is so written. */
  lemma ApplicationRoundTrip(a: Application, v: Value)
    ensures ApplicationOf(ApplicationValue(a)) == a
    ensures HasKind(v, ApplicationKind) ==> ApplicationValue(ApplicationOf(v)) == v
  {
    if HasKind(v, ApplicationKind) {
      assert v.Record? && |v.fields| == 1 && HasKind(v.fields[0], Str);
      assert v.fields == [Text(v.fields[0].s)];
    }
  }

  lemma ShortcutRoundTrip(s: Shortcut, v: Value)
    ensures ShortcutOf(ShortcutValue(s)) == s
    ensures HasKind(v, ShortcutKind) ==> ShortcutValue(ShortcutOf(v)) == v
  {
    if HasKind(v, ShortcutKind) {
      assert v.Record? && |v.fields| == 5;
      assert HasKind(v.fields[0], Str) && HasKind(v.fields[1], Str) && HasKind(v.fields[2], Str);
      assert HasKind(v.fields[3], Str) && HasKind(v.fields[4], Str);
      assert v.fields == [Text(v.fields[0].s), Text(v.fields[1].s), Text(v.fields[2].s), Text(v.fields[3].s), Text(v.fields[4].s)];
    }
  }

  lemma MediaEntryRoundTrip(e: MediaEntry, v: Value)
    ensures MediaEntryOf(MediaEntryValue(e)) == e
    ensures HasKind(v, MediaEntryKind) ==> MediaEntryValue(MediaEntryOf(v)) == v
  {
    if HasKind(v, MediaEntryKind) {
      assert v.Record? && |v.fields| == 2 && HasKind(v.fields[0], Str) && HasKind(v.fields[1], Str);
      assert v.fields == [Text(v.fields[0].s), Text(v.fields[1].s)];
    }
  }

  lemma ListStoreNodeRoundTrip(n: ListStoreNode, v: Value)
    ensures ListStoreNodeOf(ListStoreNodeValue(n)) == n
    ensures HasKind(v, ListStoreNodeKind) ==> ListStoreNodeValue(ListStoreNodeOf(v)) == v
  {
    if HasKind(v, ListStoreNodeKind) {
      assert v.Record? && |v.fields| == 2 && HasKind(v.fields[0], Str) && HasKind(v.fields[1], UInt64);
      assert v.fields == [Text(v.fields[0].s), Num(v.fields[1].n)];
    }
  }

  lemma ListApplicationItemRoundTrip(l: ListApplicationItem, v: Value)
    ensures ListApplicationItemOf(ListApplicationItemValue(l)) == l
    ensures HasKind(v, ListApplicationItemKind) ==> ListApplicationItemValue(ListApplicationItemOf(v)) == v
  {
    if HasKind(v, ListApplicationItemKind) {
      assert v.Record? && |v.fields| == 3 && HasKind(v.fields[0], Str) && HasKind(v.fields[1], Str) && HasKind(v.fields[2], Str);
      assert v.fields == [Text(v.fields[0].s), Text(v.fields[1].s), Text(v.fields[2].s)];
    }
  }

  lemma ListsRoundTrip(ss: seq<string>, ps: seq<StringPair>)
    ensures StringsOf(StringsValue(ss)) == ss && PairsOf(PairsValue(ps)) == ps
  {
  }

  lemma MediaRoundTrip(m: Media)
    ensures MediaOf(MediaValue(m)) == m
  {
    var m' := MediaOf(MediaValue(m));
    forall i | 0 <= i < |m.entry_vec_|
      ensures m'.entry_vec_[i] == m.entry_vec_[i]
    {
      MediaEntryRoundTrip(m.entry_vec_[i], Num(0));
    }
  }

  lemma ConfigurationRoundTrip(c: Configuration)
    ensures ConfigurationOf(ConfigurationValue(c)) == c
  {
    var c' := ConfigurationOf(ConfigurationValue(c));
    ListsRoundTrip(c.os_vec_, c.mount_vec_);
    ListsRoundTrip(c.exe_vec_, c.property_vec_);
    MediaRoundTrip(c.media_);
    forall i | 0 <= i < |c.shortcut_vec_|
      ensures c'.shortcut_vec_[i] == c.shortcut_vec_[i]
    {
      ShortcutRoundTrip(c.shortcut_vec_[i], Num(0));
    }
  }

  /** A `Build` survives its own walk, nested configurations and all. */
  lemma BuildRoundTrip(b: Build)
    ensures BuildOf(BuildValue(b)) == b
  {
    var b' := BuildOf(BuildValue(b));
    ListsRoundTrip([], b.dictionary_dq_);
    ListsRoundTrip([], b.property_vec_);
    forall i | 0 <= i < |b.configuration_vec_|
      ensures b'.configuration_vec_[i] == b.configuration_vec_[i]
    {
      ConfigurationRoundTrip(b.configuration_vec_[i]);
    }
  }

  // ---------------------------------------------------------------------------
  // Build fetch options

  datatype FetchOption = Name | Directory | Flags | OSes | Mounts | EXEs | Shortcuts | Image | MediaOption
  {
    /** The enumerator's position, which is its bit in the bitset. */
    function Index(): (i: nat)
      ensures i < OptionsCount
    {
      match this
      case Name => 0
      case Directory => 1
      case Flags => 2
      case OSes => 3
      case Mounts => 4
      case EXEs => 5
      case Shortcuts => 6
      case Image => 7
      case MediaOption => 8
    }
  }

  /** `OptionsCount`, the value of `FetchCount`. */
  const OptionsCount: nat := 9

  lemma IndexInjective(o: FetchOption, p: FetchOption)
    ensures o.Index() == p.Index() ==> o == p
  {
  }

  predicate HasOption(bs: seq<bool>, o: FetchOption)
    requires |bs| == OptionsCount
  {
    bs[o.Index()]
  }

  /** `set_option`: sets the option's bit in the caller's bitset. */
  method SetOption(bs: array<bool>, o: FetchOption)
    requires bs.Length == OptionsCount
    modifies bs
    ensures bs[..] == old(bs[..])[o.Index() := true]
  {
    bs[o.Index()] := true;
  }

  /** `reset_option`: clears the option's bit in the caller's bitset. */
  method ResetOption(bs: array<bool>, o: FetchOption)
    requires bs.Length == OptionsCount
    modifies bs
    ensures bs[..] == old(bs[..])[o.Index() := false]
  {
    bs[o.Index()] := false;
  }

  /** Writing one option's bit is seen by `has_option` for that option and by no other. */
  lemma OptionUpdate(bs: seq<bool>, o: FetchOption, b: bool, p: FetchOption)
    requires |bs| == OptionsCount
    ensures HasOption(bs[o.Index() := b], o) == b
    ensures p != o ==> HasOption(bs[o.Index() := b], p) == HasOption(bs, p)
  {
    IndexInjective(o, p);
  }

  // ---------------------------------------------------------------------------
  // Case-insensitive comparison, as `solid::cstring::casecmp(a, b) == 0`

  function Lower(c: char): (l: char)
    ensures !('A' <= l <= 'Z')
    ensures l != c <==> 'A' <= c <= 'Z'
  {
    if 'A' <= c <= 'Z' then (c as int + 32) as char else c
  }

  predicate CaseEq(a: string, b: string)
    ensures a == b ==> CaseEq(a, b)
    ensures CaseEq(a, b) ==> |a| == |b|
  {
    |a| == |b| && forall i :: 0 <= i < |a| ==> Lower(a[i]) == Lower(b[i])
  }

  lemma CaseEqIsEquivalence(a: string, b: string, c: string)
    ensures CaseEq(a, a)
    ensures CaseEq(a, b) ==> CaseEq(b, a)
    ensures CaseEq(a, b) && CaseEq(b, c) ==> CaseEq(a, c)
  {
  }

  // ---------------------------------------------------------------------------
  // Configuration flags

  /** `flag_names`, indexed by flag id; `LastFlagId` is its length. */
  const FlagNames: seq<string> := ["HiddenDirectory"]
  const HiddenDirectory: nat := 0

  function Bit(i: nat): bv64
    requires i < 64
  {
    1 << i
  }

  /** The first flag id whose name matches, from `from` on. */
  function FlagIndexFrom(name: string, from: nat): (r: Option<nat>)
    requires from <= |FlagNames|
    ensures r.Some? ==> from <= r.value < |FlagNames| && CaseEq(FlagNames[r.value], name)
    ensures r.None? ==> forall j :: from <= j < |FlagNames| ==> !CaseEq(FlagNames[j], name)
    decreases |FlagNames| - from
  {
    if from == |FlagNames| then None
    else if CaseEq(FlagNames[from], name) then Some(from)
    else FlagIndexFrom(name, from + 1)
  }

  /** What `flag(name)` returns: the bit of the first matching name, or 0. */
  function FlagValue(name: string): (f: bv64)
    ensures f != 0 <==> exists j :: 0 <= j < |FlagNames| && CaseEq(FlagNames[j], name)
    ensures f != 0 ==> exists j :: 0 <= j < |FlagNames| && CaseEq(FlagNames[j], name) && f == Bit(j)
  {
    match FlagIndexFrom(name, 0)
    case Some(i) => Bit(i)
    case None => 0
  }

  /** `Configuration::flag`. */
  method Flag(name: string) returns (r: bv64)
    ensures r == FlagValue(name)
  {
    var i := 0;
    while i < |FlagNames|
      invariant 0 <= i <= |FlagNames|
      invariant FlagIndexFrom(name, 0) == FlagIndexFrom(name, i)
    {
      if CaseEq(FlagNames[i], name) {
        return Bit(i);
      }
      i := i + 1;
    }
    return 0;
  }

  /** `flag(name)` is the `HiddenDirectory` bit exactly for the names that match it, and 0 for any other. */
  lemma FlagMeaning(name: string)
    ensures FlagValue(name) == if CaseEq(FlagNames[HiddenDirectory], name) then Bit(HiddenDirectory) else 0
  {
  }

  /** The OR of `flag` over a list, as `compute_flags` accumulates it. */
  function FlagsOfNames(l: seq<string>): bv64
  {
    if l == [] then 0 else FlagsOfNames(l[..|l| - 1]) | FlagValue(l[|l| - 1])
  }

  /** `Configuration::compute_flags`. */
  method ComputeFlags(l: seq<string>) returns (flags: bv64)
    ensures flags == FlagsOfNames(l)
  {
    flags := 0;
    for i := 0 to |l|
      invariant flags == FlagsOfNames(l[..i])
    {
      assert l[..i + 1][..i] == l[..i];
      flags := flags | FlagValue(l[i]);
    }
    assert l[..|l|] == l;
  }

  /** A flag is set in `compute_flags(l)` exactly when some name in `l` matches it. */
  lemma {:induction false} ComputeFlagsMeaning(l: seq<string>)
    ensures (FlagsOfNames(l) & Bit(HiddenDirectory) != 0) <==> exists n :: n in l && CaseEq(FlagNames[HiddenDirectory], n)
    ensures FlagsOfNames(l) & !Bit(HiddenDirectory) == 0
  {
    if l != [] {
      var init, last := l[..|l| - 1], l[|l| - 1];
      ComputeFlagsMeaning(init);
      FlagMeaning(last);
      assert l == init + [last];
      assert forall n :: n in l <==> n in init || n == last;
    }
  }

  /** The names `for_each_flag(flags, f)` passes to `f` among the first `k`, in index order. */
  function VisitedNames(flags: bv64, k: nat): seq<string>
    requires k <= |FlagNames|
  {
    if k == 0 then []
    else VisitedNames(flags, k - 1) + if flags & Bit(k - 1) != 0 then [FlagNames[k - 1]] else []
  }

  /** `Configuration::for_each_flag`, the callback's arguments collected in call order. */
  method ForEachFlag(flags: bv64) returns (visited: seq<string>)
    ensures visited == VisitedNames(flags, |FlagNames|)
  {
    visited := [];
    for i := 0 to |FlagNames|
      invariant visited == VisitedNames(flags, i)
    {
      if flags & Bit(i) != 0 {
        visited := visited + [FlagNames[i]];
      }
    }
  }

  /** `for_each_flag` visits the `HiddenDirectory` name exactly when bit 0 is set, and nothing else. */
  lemma VisitedMeaning(flags: bv64)
    ensures VisitedNames(flags, |FlagNames|) == if flags & Bit(HiddenDirectory) != 0 then [FlagNames[HiddenDirectory]] else []
  {
  }

  /** `Configuration::hasHiddenDirectoryFlag`. */
  predicate HasHiddenDirectoryFlag(c: Configuration)
    ensures HasHiddenDirectoryFlag(c) <==> c.flags_ & Bit(HiddenDirectory) != 0
  {
    c.flags_ & 1 != 0
  }

  /** A configuration whose flags were computed from names has the flag exactly when one of them names it. */
  lemma HiddenDirectoryFromNames(c: Configuration, l: seq<string>)
    requires c.flags_ == FlagsOfNames(l)
    ensures HasHiddenDirectoryFlag(c) <==> exists n :: n in l && CaseEq("HiddenDirectory", n)
  {
    ComputeFlagsMeaning(l);
  }

  // ---------------------------------------------------------------------------
  // Item states and flags, and their names

  datatype ItemState =
    | Invalid | Trash | PrivateAlpha | ReviewRequest | ReviewStarted | ReviewAccepted | ReviewRejected
    | PublicAlpha | PublicBeta | PublicRelease
  {
    function Code(): (c: bv8)
      ensures c < StateCount
    {
      match this
      case Invalid => 0
      case Trash => 1
      case PrivateAlpha => 2
      case ReviewRequest => 3
      case ReviewStarted => 4
      case ReviewAccepted => 5
      case ReviewRejected => 6
      case PublicAlpha => 7
      case PublicBeta => 8
      case PublicRelease => 9
    }
  }

  const StateCount: bv8 := 10

  /** The enumerator a `uint8_t` code stands for, if it is one. */
  function StateOfCode(c: bv8): (s: Option<ItemState>)
    ensures s.Some? <==> c < StateCount
    ensures s.Some? ==> s.value.Code() == c
  {
    if c == 0 then Some(ItemState.Invalid)
    else if c == 1 then Some(Trash)
    else if c == 2 then Some(PrivateAlpha)
    else if c == 3 then Some(ItemState.ReviewRequest)
    else if c == 4 then Some(ReviewStarted)
    else if c == 5 then Some(ItemState.ReviewAccepted)
    else if c == 6 then Some(ItemState.ReviewRejected)
    else if c == 7 then Some(PublicAlpha)
    else if c == 8 then Some(PublicBeta)
    else if c == 9 then Some(PublicRelease)
    else None
  }

  const PrivateAlphaName := "private_alpha"
  const PublicAlphaName := "public_alpha"
  const PublicBetaName := "public_beta"
  const PublicReleaseName := "public_release"
  const InvalidName := "none"
  const TrashName := "trash"

  /** `app_item_state_name` on the raw code: codes outside the enumeration give "". */
  function StateName(c: bv8): (r: string)
    ensures r == "" <==> c >= StateCount
  {
    match StateOfCode(c)
    case None => ""
    case Some(s) =>
      match s
      case Invalid => InvalidName
      case Trash => TrashName
      case PrivateAlpha => PrivateAlphaName
      case ReviewRequest => "review_request"
      case ReviewStarted => "review_started"
      case ReviewAccepted => "review_accepted"
      case ReviewRejected => "review_rejected"
      case PublicAlpha => PublicAlphaName
      case PublicBeta => PublicBetaName
      case PublicRelease => PublicReleaseName
  }

  /** Every state has its own non-empty name; any other code has none. */
  lemma StateNamesDistinct(c: bv8, d: bv8)
    ensures StateName(c) == "" <==> c >= StateCount
    ensures c < StateCount && d < StateCount && StateName(c) == StateName(d) ==> c == d
  {
  }

  predicate IsDefaultPublicName(name: string)
    ensures IsDefaultPublicName(name) ==> |name| > 7 && name[..7] == "public_"
  {
    name in {PublicAlphaName, PublicBetaName, PublicReleaseName}
  }

  predicate IsDefaultName(name: string)
    ensures IsDefaultPublicName(name) ==> IsDefaultName(name)
    ensures IsDefaultName(name) ==> name != ""
  {
    IsDefaultPublicName(name) || name in {PrivateAlphaName, InvalidName, TrashName}
  }

  /**
   * The default names are the names of six states: a state's name is
   * default exactly for invalid, trash, private alpha and the three public
   * states, and default public exactly for the public ones.
   */
  lemma DefaultNamesAreStateNames(s: ItemState)
    ensures IsDefaultPublicName(StateName(s.Code())) <==> s in {PublicAlpha, PublicBeta, PublicRelease}
    ensures IsDefaultName(StateName(s.Code()))
        <==> s in {PublicAlpha, PublicBeta, PublicRelease, ItemState.Invalid, Trash, PrivateAlpha}
  {
  }

  datatype ItemFlag = Invalid | ReviewAccepted | ReviewRejected
  {
    predicate Valid() { !this.Invalid? }

    /**
     * `1ULL << static_cast<uint8_t>` of the enumerator: ReviewAccepted is 0
     * and ReviewRejected 1. The `Invalid` flag's -1 becomes a shift by 255,
     * which is undefined, so it has no bit.
     */
    function Bit(): (b: bv64)
      requires Valid()
      ensures b == 1 || b == 2
    {
      if this.ReviewAccepted? then 1 else 2
    }
  }

  function FlagName(f: ItemFlag): (n: string)
    ensures n == "" <==> !f.Valid()
  {
    match f
    case ReviewAccepted => "ReviewAccepted"
    case ReviewRejected => "ReviewRejected"
    case Invalid => ""
  }

  /** No name matches both flag names. */
  lemma FlagNamesApart(name: string)
    ensures !(CaseEq(name, "ReviewAccepted") && CaseEq(name, "ReviewRejected"))
  {
    if CaseEq(name, "ReviewAccepted") {
      assert Lower(name[6]) == Lower("ReviewAccepted"[6]) == 'a';
      assert Lower("ReviewRejected"[6]) == 'r';
    }
  }

  /** `app_item_flag`: the first flag whose name matches case-insensitively, else `Invalid`. */
  function ItemFlagOf(name: string): (f: ItemFlag)
    ensures f == ItemFlag.ReviewAccepted <==> CaseEq(name, "ReviewAccepted")
    ensures f == ItemFlag.ReviewRejected <==> CaseEq(name, "ReviewRejected")
  {
    FlagNamesApart(name);
    if CaseEq(name, FlagName(ItemFlag.ReviewAccepted)) then ItemFlag.ReviewAccepted
    else if CaseEq(name, FlagName(ItemFlag.ReviewRejected)) then ItemFlag.ReviewRejected
    else ItemFlag.Invalid
  }

  /** Naming a real flag and reading the name back gives the flag. */
  lemma ItemFlagOfName(f: ItemFlag)
    ensures ItemFlagOf(FlagName(f)) == f
  {
    CaseEqIsEquivalence(FlagName(f), FlagName(f), FlagName(f));
  }

  // ---------------------------------------------------------------------------
  // AppItemEntry: state in bits 0-7, type in bits 8-11, flags in bits 12-63

  datatype ItemType = BuildItem | MediaItem
  {
    function Code(): bv4 { if this.BuildItem? then 0 else 1 }
  }

  /** The 52 bits of the flags bitfield. */
  const FlagsMask: bv64 := 0xF_FFFF_FFFF_FFFF

  function StateBits(v: bv64): bv8
  {
    (v & 0xFF) as bv8
  }

  function TypeBits(v: bv64): bv4
  {
    ((v >> 8) & 0xF) as bv4
  }

  function FlagBits(v: bv64): (f: bv64)
    ensures f & !FlagsMask == 0
  {
    v >> 12
  }

  /** The three bitfields make up the whole word. */
  lemma BitfieldsDetermineValue(v: bv64, w: bv64)
    requires StateBits(v) == StateBits(w) && TypeBits(v) == TypeBits(w) && FlagBits(v) == FlagBits(w)
    ensures v == w
  {
  }

  function WithState(v: bv64, s: bv8): (r: bv64)
    ensures StateBits(r) == s && TypeBits(r) == TypeBits(v) && FlagBits(r) == FlagBits(v)
  {
    (v & !0xFF) | s as bv64
  }

  function WithType(v: bv64, t: bv4): (r: bv64)
    ensures TypeBits(r) == t && StateBits(r) == StateBits(v) && FlagBits(r) == FlagBits(v)
  {
    (v & !0xF00) | (t as bv64 << 8)
  }

  /** Assigning a `uint64_t` to the 52-bit field keeps its low 52 bits. */
  function WithFlags(v: bv64, f: bv64): (r: bv64)
    ensures FlagBits(r) == f & FlagsMask && StateBits(r) == StateBits(v) && TypeBits(r) == TypeBits(v)
  {
    (v & 0xFFF) | (f << 12)
  }

  class AppItemEntry {
    var name_: string
    /** The union, read as `u_.value_`. */
    var value_: bv64

    /** `AppItemEntry(name, state)`: the zeroed union with the state written in. */
    constructor WithName(name: string, s: ItemState)
      ensures name_ == name && value_ == s.Code() as bv64
      ensures State() == s.Code() && Type() == ItemType.BuildItem.Code() && Flags() == 0
    {
      name_ := name;
      value_ := WithState(0, s.Code());
    }

    /** `AppItemEntry(value)`. */
    constructor (v: bv64)
      ensures name_ == "" && value_ == v
    {
      name_ := "";
      value_ := v;
    }

    /** The 52-bit flags field; writing it back leaves the word as it is. */
    function Flags(): (f: bv64)
      reads this
      ensures f & !FlagsMask == 0
      ensures WithFlags(value_, f) == value_
    {
      FlagBits(value_)
    }

    /** The state field, bits 0-7; writing it back leaves the word as it is. */
    function State(): (s: bv8)
      reads this
      ensures WithState(value_, s) == value_
    {
      StateBits(value_)
    }

    /** The type field, bits 8-11; writing it back leaves the word as it is. */
    function Type(): (t: bv4)
      reads this
      ensures WithType(value_, t) == value_
    {
      TypeBits(value_)
    }

    /** The whole union word, made up of the three fields. */
    function Value(): (v: bv64)
      reads this
      ensures StateBits(v) == State() && TypeBits(v) == Type() && FlagBits(v) == Flags()
    {
      value_
    }

    method SetFlags(f: bv64)
      modifies this
      ensures value_ == WithFlags(old(value_), f) && name_ == old(name_)
      ensures Flags() == f & FlagsMask && State() == old(State()) && Type() == old(Type())
    {
      value_ := WithFlags(value_, f);
    }

    method SetState(s: ItemState)
      modifies this
      ensures value_ == WithState(old(value_), s.Code()) && name_ == old(name_)
      ensures State() == s.Code() && Type() == old(Type()) && Flags() == old(Flags())
    {
      value_ := WithState(value_, s.Code());
    }

    method SetType(t: ItemType)
      modifies this
      ensures value_ == WithType(old(value_), t.Code()) && name_ == old(name_)
      ensures Type() == t.Code() && State() == old(State()) && Flags() == old(Flags())
    {
      value_ := WithType(value_, t.Code());
    }

    method SetValue(v: bv64)
      modifies this
      ensures value_ == v && name_ == old(name_)
    {
      value_ := v;
    }

    /** `isFlagSet`; the shift for `Invalid` is past the width, so it is excluded. */
    predicate IsFlagSet(f: ItemFlag)
      requires f.Valid()
      reads this
      ensures IsFlagSet(f) <==> value_ & (f.Bit() << 12) != 0
    {
      Flags() & f.Bit() != 0
    }

    method SetFlag(f: ItemFlag)
      requires f.Valid()
      modifies this
      ensures value_ == WithFlags(old(value_), old(Flags()) | f.Bit()) && name_ == old(name_)
    {
      SetFlags(Flags() | f.Bit());
    }

    method ResetFlag(f: ItemFlag)
      requires f.Valid()
      modifies this
      ensures value_ == WithFlags(old(value_), old(Flags()) & !f.Bit()) && name_ == old(name_)
    {
      SetFlags(Flags() & !f.Bit());
    }
  }

  /** Setting a real flag makes it set and leaves the other flag, the state and the type as they were. */
  lemma FlagSetEffect(v: bv64, f: ItemFlag, g: ItemFlag)
    requires f.Valid() && g.Valid()
    ensures var s := WithFlags(v, FlagBits(v) | f.Bit());
      && FlagBits(s) & f.Bit() != 0
      && (g != f ==> (FlagBits(s) & g.Bit() != 0) == (FlagBits(v) & g.Bit() != 0))
      && StateBits(s) == StateBits(v) && TypeBits(s) == TypeBits(v)
  {
    if f.ReviewAccepted? {
      AcceptedUpdate(v);
    } else {
      RejectedUpdate(v);
    }
  }

  /** Resetting a real flag makes it clear and leaves the other flag, the state and the type as they were. */
  lemma FlagResetEffect(v: bv64, f: ItemFlag, g: ItemFlag)
    requires f.Valid() && g.Valid()
    ensures var r := WithFlags(v, FlagBits(v) & !f.Bit());
      && FlagBits(r) & f.Bit() == 0
      && (g != f ==> (FlagBits(r) & g.Bit() != 0) == (FlagBits(v) & g.Bit() != 0))
      && StateBits(r) == StateBits(v) && TypeBits(r) == TypeBits(v)
  {
    if f.ReviewAccepted? {
      AcceptedUpdate(v);
    } else {
      RejectedUpdate(v);
    }
  }

  /** The flag updates for `ReviewAccepted`, bit 0 of the flags; bit 1 is the other flag. */
  lemma AcceptedUpdate(v: bv64)
    ensures var s := WithFlags(v, FlagBits(v) | 1);
      && FlagBits(s) & 1 != 0 && (FlagBits(s) & 2 != 0) == (FlagBits(v) & 2 != 0)
      && StateBits(s) == StateBits(v) && TypeBits(s) == TypeBits(v)
    ensures var r := WithFlags(v, FlagBits(v) & !1);
      && FlagBits(r) & 1 == 0 && (FlagBits(r) & 2 != 0) == (FlagBits(v) & 2 != 0)
      && StateBits(r) == StateBits(v) && TypeBits(r) == TypeBits(v)
  {
    MaskedFlags(v, FlagBits(v) | 1);
    MaskedFlags(v, FlagBits(v) & !1);
    MaskedUpdateLow(FlagBits(v));
  }

  /** The flag updates for `ReviewRejected`, bit 1 of the flags; bit 0 is the other flag. */
  lemma RejectedUpdate(v: bv64)
    ensures var s := WithFlags(v, FlagBits(v) | 2);
      && FlagBits(s) & 2 != 0 && (FlagBits(s) & 1 != 0) == (FlagBits(v) & 1 != 0)
      && StateBits(s) == StateBits(v) && TypeBits(s) == TypeBits(v)
    ensures var r := WithFlags(v, FlagBits(v) & !2);
      && FlagBits(r) & 2 == 0 && (FlagBits(r) & 1 != 0) == (FlagBits(v) & 1 != 0)
      && StateBits(r) == StateBits(v) && TypeBits(r) == TypeBits(v)
  {
    MaskedFlags(v, FlagBits(v) | 2);
    MaskedFlags(v, FlagBits(v) & !2);
    MaskedUpdateHigh(FlagBits(v));
  }

  /** Only the flag field changes, and it is read back as written, cut to 52 bits. */
  lemma MaskedFlags(v: bv64, y: bv64)
    ensures FlagBits(WithFlags(v, y)) == y & FlagsMask
    ensures StateBits(WithFlags(v, y)) == StateBits(v) && TypeBits(WithFlags(v, y)) == TypeBits(v)
  {
  }

  /** Setting or clearing flag bit 0 within the 52-bit flag field leaves bit 1 alone. */
  lemma MaskedUpdateLow(x: bv64)
    ensures ((x | 1) & FlagsMask) & 1 != 0 && (((x | 1) & FlagsMask) & 2 != 0) == (x & 2 != 0)
    ensures ((x & !1) & FlagsMask) & 1 == 0 && (((x & !1) & FlagsMask) & 2 != 0) == (x & 2 != 0)
  {
  }

  /** Setting or clearing flag bit 1 within the 52-bit flag field leaves bit 0 alone. */
  lemma MaskedUpdateHigh(x: bv64)
    ensures ((x | 2) & FlagsMask) & 2 != 0 && (((x | 2) & FlagsMask) & 1 != 0) == (x & 1 != 0)
    ensures ((x & !2) & FlagsMask) & 2 == 0 && (((x & !2) & FlagsMask) & 1 != 0) == (x & 1 != 0)
  {
  }
}
