/**
 * `MmapStore`: each process keeps the values of a metric in its own mapped
 * dictionary file; exporting reads every process's file for the metric and
 * folds the values of each label set with the metric's aggregation mode.
 *
 * The directory is a parameter: writing goes through the process's own
 * dictionary, and reading takes the directory's entries, in the order the
 * glob lists them, with their contents.
 */
module MmapStore {
  import opened Wrappers
  import opened Bytes
  import opened StoreSettings
  import opened LabelCodec
  import opened Aggregation
  import opened StoreFiles
  import opened MmapedDictionary

  // ---------------------------------------------------------------------------
  // Metric settings

  const AggregationKey: Atom := Sym("aggregation")

  /** `DEFAULT_METRIC_SETTINGS`. */
  const DefaultMetricSettings: Settings := map[AggregationKey := Sum]

  /** `DEFAULT_METRIC_SETTINGS.merge(metric_settings)`: the metric's own settings win. */
  function Merged(s: Settings): (r: Settings)
    ensures r.Keys == s.Keys + {AggregationKey}
    ensures forall k :: k in s ==> r[k] == s[k]
    ensures AggregationKey !in s ==> r[AggregationKey] == Sum
  {
    DefaultMetricSettings + s
  }

  /** `validate_metric_settings`: a valid `:aggregation` first, then nothing else. */
  function ValidateMetricSettings(s: Settings): (r: Result<(), StoreError>)
    ensures r.Success? <==> s.Keys == {AggregationKey} && s[AggregationKey] in AggregationModes
    ensures r == Failure(NeedsAggregation) <==> !(AggregationKey in s && s[AggregationKey] in AggregationModes)
    ensures r.Failure? ==> r.error in {NeedsAggregation, OnlyAggregation}
  {
    if !(AggregationKey in s && s[AggregationKey] in AggregationModes) then Failure(NeedsAggregation)
    else if s.Keys - {AggregationKey} != {} then Failure(OnlyAggregation)
    else Success(())
  }

  /**
   * `for_metric` accepts exactly the settings that say nothing but, at most,
   * a valid aggregation; the mode is that one, or sum when none is given.
   */
  lemma AcceptedSettings(s: Settings)
    ensures ValidateMetricSettings(Merged(s)).Success?
      <==> s.Keys <= {AggregationKey} && (AggregationKey in s ==> s[AggregationKey] in AggregationModes)
    ensures Merged(s)[AggregationKey] == if AggregationKey in s then s[AggregationKey] else Sum
  {
    var m := Merged(s);
    if s.Keys <= {AggregationKey} && (AggregationKey in s ==> s[AggregationKey] in AggregationModes) {
      assert m.Keys == {AggregationKey};
    }
  }

  /**
   * The settings the store's examples try: an explicit sum is accepted, an
   * unknown mode and an unknown setting are refused; so is a string key
   * `"aggregation"`, which the merge keeps beside the symbol one.
   */
  lemma SettingsExamples()
    ensures ValidateMetricSettings(Merged(map[])).Success?
    ensures ValidateMetricSettings(Merged(map[AggregationKey := Sum])).Success?
    ensures ValidateMetricSettings(Merged(map[AggregationKey := Symbol("invalid")])) == Failure(NeedsAggregation)
    ensures ValidateMetricSettings(Merged(map[Sym("some_setting") := Other])) == Failure(OnlyAggregation)
    ensures ValidateMetricSettings(Merged(map[Str("aggregation") := Max])) == Failure(OnlyAggregation)
  {
    AcceptedSettings(map[]);
    AcceptedSettings(map[AggregationKey := Sum]);
    assert Symbol("invalid") !in AggregationModes;
    var other := Merged(map[Sym("some_setting") := Other]);
    assert Sym("some_setting") in other.Keys - {AggregationKey};
    var text := Merged(map[Str("aggregation") := Max]);
    assert Str("aggregation") in text.Keys - {AggregationKey};
  }

  // ---------------------------------------------------------------------------
  // Reading the metric's files

  /** One entry of the store's directory: its name and its contents. */
  datatype DirEntry = DirEntry(name: string, content: seq<Byte>)

  /** The files a glob for `metric_<name>___*` lists, as the source selects them. */
  function GlobStoresForMetric(name: string, listing: seq<DirEntry>): (r: seq<DirEntry>)
    ensures forall f :: f in r <==> f in listing && GlobMatches(name, f.name)
  {
    if listing == [] then []
    else
      var init := GlobStoresForMetric(name, listing[..|listing| - 1]);
      var f := listing[|listing| - 1];
      assert listing == listing[..|listing| - 1] + [f];
      if GlobMatches(name, f.name) then init + [f] else init
  }

  /** `stores_for_metric`: the files of the metric's processes, in listing order. */
  function StoresForMetric(name: string, listing: seq<DirEntry>): (r: seq<DirEntry>)
    ensures forall f :: f in r <==> f in listing && OwnedBy(name, f.name)
    ensures (forall i :: 0 <= i < |listing| ==> !OwnedBy(name, listing[i].name)) ==> r == []
  {
    if listing == [] then []
    else
      var init := StoresForMetric(name, listing[..|listing| - 1]);
      var f := listing[|listing| - 1];
      assert listing == listing[..|listing| - 1] + [f];
      if OwnedBy(name, f.name) then init + [f] else init
  }

  /** A stored pair as `all_values` sees it: the label set its key parses to, and its value. */
  function EntryObservation(e: Entry): Observation<LabelSet>
  {
    Observation(ParseQuery(e.key), UnpackInt64(e.value))
  }

  /** The stored pairs of one file as `all_values` sees them, in file order. */
  function EntryObservations(es: seq<Entry>): seq<Observation<LabelSet>>
  {
    seq(|es|, i requires 0 <= i < |es| => EntryObservation(es[i]))
  }

  /**
   * Pairs written under `store_key(ls[i])` are read as the label hashes
   * `ls[i]` themselves, one per pair and in file order, each with its value.
   */
  lemma WrittenPairsParsed(ls: seq<seq<Label>>, es: seq<Entry>)
    requires |ls| == |es|
    requires forall i :: 0 <= i < |es| ==> DistinctNames(ls[i]) && es[i].key == StoreKey(ls[i])
    ensures |EntryObservations(es)| == |es|
    ensures forall i :: 0 <= i < |es| ==>
      EntryObservations(es)[i] == Observation(LabelMap(ls[i]), UnpackInt64(es[i].value))
  {
    forall i | 0 <= i < |es|
      ensures EntryObservations(es)[i] == Observation(LabelMap(ls[i]), UnpackInt64(es[i].value))
    {
      ParseStoreKey(ls[i]);
    }
  }

  /** The pairs a metric file holds, in file order, or an error for a file no dictionary could have written. */
  function FileEntries(content: seq<Byte>): Result<seq<Entry>, StoreError>
  {
    match Decoded(content)
    case Failure(_) => Failure(MalformedFile)
    case Success(image) => Success(image.entries)
  }

  /**
   * Every value of every file, file after file and in file order within
   * each; the first file no dictionary could have written is an error.
   */
  function ListingObservations(files: seq<DirEntry>): Result<seq<Observation<LabelSet>>, StoreError>
  {
    if files == [] then Success([])
    else
      match ListingObservations(files[..|files| - 1])
      case Failure(e) => Failure(e)
      case Success(obs) =>
        match FileEntries(files[|files| - 1].content)
        case Failure(e) => Failure(e)
        case Success(entries) => Success(obs + EntryObservations(entries))
  }

  /** Reading `files` and folding the values of each label set with `mode`. */
  function ExportOf(mode: Setting, files: seq<DirEntry>): Result<map<LabelSet, int>, StoreError>
  {
    match ListingObservations(files)
    case Failure(e) => Failure(e)
    case Success(obs) =>
      GroupsNonEmpty(obs);
      Aggregated(mode, Groups(obs))
  }

  /** `all_values` on the metric's files among `listing`. */
  function AllValuesOf(name: string, mode: Setting, listing: seq<DirEntry>): Result<map<LabelSet, int>, StoreError>
  {
    ExportOf(mode, StoresForMetric(name, listing))
  }

  /** `all_values` as the source selects files: through the glob. */
  function GlobAllValuesOf(name: string, mode: Setting, listing: seq<DirEntry>): Result<map<LabelSet, int>, StoreError>
  {
    ExportOf(mode, GlobStoresForMetric(name, listing))
  }

  /** Once one file fails to decode, reading the rest of the listing fails the same way. */
  lemma {:induction false} ListingFailureStays(files: seq<DirEntry>, k: nat)
    requires k <= |files| && ListingObservations(files[..k]).Failure?
    ensures ListingObservations(files) == ListingObservations(files[..k])
    decreases |files| - k
  {
    if k < |files| {
      assert files[..k + 1][..k] == files[..k];
      ListingFailureStays(files, k + 1);
    } else {
      assert files[..k] == files;
    }
  }

  /** A directory with no file of the metric's processes exports nothing. */
  lemma NoFilesNoValues(name: string, mode: Setting, listing: seq<DirEntry>)
    requires forall i :: 0 <= i < |listing| ==> !OwnedBy(name, listing[i].name)
    ensures AllValuesOf(name, mode, listing) == Success(map[])
  {
    assert ListingObservations(StoresForMetric(name, listing)) == Success([]);
    assert LabelSets<LabelSet>([]) == {};
    assert Groups<LabelSet>([]) == map[];
  }

  /** The one file of metric `foo___bar` is selected by the glob of `foo`, and not by the exact selection. */
  lemma GlobSelectsOtherFile(name: string, suffix: string, pid: nat, content: seq<Byte>)
    ensures var other := DirEntry(FileName(name + Separator + suffix, pid), content);
      GlobStoresForMetric(name, [other]) == [other] && StoresForMetric(name, [other]) == []
  {
    GlobMatchesLongerName(name, suffix, pid);
    NotOwnedByOtherName(name, name + Separator + suffix, pid);
    var other := DirEntry(FileName(name + Separator + suffix, pid), content);
    assert [other][..0] == [];
  }

  /** Reading a listing of one readable file gives that file's pairs. */
  lemma SingleFileObservations(f: DirEntry)
    requires FileEntries(f.content).Success?
    ensures ListingObservations([f]) == Success(EntryObservations(FileEntries(f.content).value))
  {
    assert [f][..0] == [];
    assert [] + EntryObservations(FileEntries(f.content).value) == EntryObservations(FileEntries(f.content).value);
  }

  /** Through the glob, metric `foo` exports the first label set of a file of `foo___bar`. */
  lemma GlobExportsOtherFile(name: string, mode: Setting, other: DirEntry)
    requires mode in AggregationModes
    requires GlobStoresForMetric(name, [other]) == [other]
    requires FileEntries(other.content).Success? && FileEntries(other.content).value != []
    ensures GlobAllValuesOf(name, mode, [other]).Success?
    ensures ParseQuery(FileEntries(other.content).value[0].key) in GlobAllValuesOf(name, mode, [other]).value
  {
    var es := FileEntries(other.content).value;
    SingleFileExport(mode, other, es);
    FirstKeyExported(mode, es);
  }

  lemma SingleFileExport(mode: Setting, f: DirEntry, es: seq<Entry>)
    requires FileEntries(f.content) == Success(es)
    ensures NonEmptyGroups(Groups(EntryObservations(es)))
    ensures ExportOf(mode, [f]) == Aggregated(mode, Groups(EntryObservations(es)))
  {
    GroupsNonEmpty(EntryObservations(es));
    SingleFileObservations(f);
  }

  lemma FirstKeyExported(mode: Setting, es: seq<Entry>)
    requires mode in AggregationModes && es != []
    ensures NonEmptyGroups(Groups(EntryObservations(es)))
    ensures Aggregated(mode, Groups(EntryObservations(es))).Success?
    ensures ParseQuery(es[0].key) in Aggregated(mode, Groups(EntryObservations(es))).value
  {
    var obs := EntryObservations(es);
    GroupsNonEmpty(obs);
    LabelsExported(mode, obs);
    assert obs[0].labels == ParseQuery(es[0].key);
  }

  /** Through the exact selection, a listing with no file of the metric exports nothing. */
  lemma ExactIgnoresOtherFile(name: string, mode: Setting, other: DirEntry)
    requires StoresForMetric(name, [other]) == []
    ensures AllValuesOf(name, mode, [other]) == Success(map[])
  {
    assert ListingObservations(StoresForMetric(name, [other])) == Success([]);
    assert Groups<LabelSet>([]) == map[];
  }

  /**
   * The glob's file selection lets a second metric's values in: with only
   * a file of metric `foo___bar` in the directory, metric `foo` exports the
   * label sets of that file, while the exact selection exports nothing.
   */
  lemma GlobReadsOtherMetric(name: string, mode: Setting, suffix: string, pid: nat, content: seq<Byte>)
    requires mode in AggregationModes
    requires FileEntries(content).Success? && FileEntries(content).value != []
    ensures var other := DirEntry(FileName(name + Separator + suffix, pid), content);
      && GlobAllValuesOf(name, mode, [other]).Success?
      && ParseQuery(FileEntries(content).value[0].key) in GlobAllValuesOf(name, mode, [other]).value
      && AllValuesOf(name, mode, [other]) == Success(map[])
  {
    var other := DirEntry(FileName(name + Separator + suffix, pid), content);
    GlobSelectsOtherFile(name, suffix, pid, content);
    GlobExportsOtherFile(name, mode, other);
    ExactIgnoresOtherFile(name, mode, other);
  }

  // ---------------------------------------------------------------------------
  // The order of the listing

  /** Every file of `files` can be read. */
  predicate Readable(files: seq<DirEntry>)
  {
    forall f :: f in files ==> FileEntries(f.content).Success?
  }

  /** The values of one file; none when it cannot be read. */
  function FileObservations(f: DirEntry): seq<Observation<LabelSet>>
  {
    match FileEntries(f.content)
    case Failure(_) => []
    case Success(entries) => EntryObservations(entries)
  }

  /** `f` of every element, concatenated in order. */
  function FlatMap<A, B>(f: A -> seq<B>, xs: seq<A>): seq<B>
  {
    if xs == [] then [] else FlatMap(f, xs[..|xs| - 1]) + f(xs[|xs| - 1])
  }

  /** The values of every file, file after file. */
  function AllObservations(files: seq<DirEntry>): seq<Observation<LabelSet>>
  {
    FlatMap(FileObservations, files)
  }

  /** Reading the files fails exactly when one of them cannot be read, and then as a malformed file. */
  lemma {:induction false} ListingReadable(files: seq<DirEntry>)
    ensures ListingObservations(files) == if Readable(files) then Success(AllObservations(files)) else Failure(MalformedFile)
    decreases |files|
  {
    if files != [] {
      var n := |files| - 1;
      var init, last := files[..n], files[n];
      ListingReadable(init);
      assert files == init + [last];
      assert last in files;
      assert forall g :: g in init ==> g in files;
      assert Readable(files) <==> Readable(init) && FileEntries(last.content).Success?;
      assert FileEntries(last.content).Failure? ==> FileEntries(last.content).error == MalformedFile;
      assert AllObservations(files) == AllObservations(init) + FileObservations(last);
    }
  }

  lemma {:induction false} FlatMapConcat<A, B>(f: A -> seq<B>, p: seq<A>, q: seq<A>)
    ensures FlatMap(f, p + q) == FlatMap(f, p) + FlatMap(f, q)
    decreases |q|
  {
    if q == [] {
      assert p + q == p;
    } else {
      var n := |q| - 1;
      assert (p + q)[..|p + q| - 1] == p + q[..n];
      assert (p + q)[|p + q| - 1] == q[n];
      FlatMapConcat(f, p, q[..n]);
    }
  }

  /** Mapping the same elements in another order gives the same results in another order. */
  lemma {:induction false} FlatMapPermutation<A, B>(f: A -> seq<B>, xs: seq<A>, ys: seq<A>)
    requires multiset(xs) == multiset(ys)
    ensures multiset(FlatMap(f, xs)) == multiset(FlatMap(f, ys))
    decreases |ys|
  {
    if ys == [] {
      assert |xs| == |multiset(xs)| == 0;
    } else {
      var n := |ys| - 1;
      var y := ys[n];
      assert y in multiset(xs);
      var i :| 0 <= i < |xs| && xs[i] == y;
      var rest := xs[..i] + xs[i + 1..];
      assert xs == xs[..i] + [y] + xs[i + 1..];
      assert ys == ys[..n] + [y];
      assert multiset(xs) == multiset(xs[..i]) + multiset{y} + multiset(xs[i + 1..]);
      assert multiset(rest) == multiset(xs[..i]) + multiset(xs[i + 1..]);
      assert multiset(ys) == multiset(ys[..n]) + multiset{y};
      assert multiset(rest) == multiset(xs) - multiset{y};
      assert multiset(rest) == multiset(ys[..n]);
      FlatMapPermutation(f, rest, ys[..n]);
      FlatMapConcat(f, xs[..i] + [y], xs[i + 1..]);
      FlatMapConcat(f, xs[..i], [y]);
      FlatMapConcat(f, xs[..i], xs[i + 1..]);
      assert [y][..0] == [];
    }
  }

  /** Reading the same files in another order reads the same values in another order. */
  lemma AllObservationsPermutation(files: seq<DirEntry>, files': seq<DirEntry>)
    requires multiset(files) == multiset(files')
    ensures multiset(AllObservations(files)) == multiset(AllObservations(files'))
  {
    FlatMapPermutation(FileObservations, files, files');
  }

  lemma ReadablePermutation(files: seq<DirEntry>, files': seq<DirEntry>)
    requires multiset(files) == multiset(files')
    ensures Readable(files) <==> Readable(files')
  {
    forall f ensures f in files <==> f in files' {
      assert f in files <==> f in multiset(files);
      assert f in files' <==> f in multiset(files');
    }
  }

  /** Reading the same files in another order exports the same values, or fails in the same way. */
  lemma ExportPermutation(mode: Setting, files: seq<DirEntry>, files': seq<DirEntry>)
    requires multiset(files) == multiset(files')
    ensures ExportOf(mode, files) == ExportOf(mode, files')
  {
    ListingReadable(files);
    ListingReadable(files');
    ReadablePermutation(files, files');
    if Readable(files) {
      AllObservationsPermutation(files, files');
      ObservationPermutation(mode, AllObservations(files), AllObservations(files'));
    }
  }

  /** The exact selection keeps each listed file of the metric as often as it is listed, and no other. */
  lemma {:induction false} SelectionCounts(name: string, listing: seq<DirEntry>, f: DirEntry)
    ensures multiset(StoresForMetric(name, listing))[f] == if OwnedBy(name, f.name) then multiset(listing)[f] else 0
    decreases |listing|
  {
    if listing != [] {
      var n := |listing| - 1;
      assert listing == listing[..n] + [listing[n]];
      SelectionCounts(name, listing[..n], f);
    }
  }

  /** The glob keeps each listed file it matches as often as it is listed, and no other. */
  lemma {:induction false} GlobSelectionCounts(name: string, listing: seq<DirEntry>, f: DirEntry)
    ensures multiset(GlobStoresForMetric(name, listing))[f] == if GlobMatches(name, f.name) then multiset(listing)[f] else 0
    decreases |listing|
  {
    if listing != [] {
      var n := |listing| - 1;
      assert listing == listing[..n] + [listing[n]];
      GlobSelectionCounts(name, listing[..n], f);
    }
  }

  /**
   * `all_values` does not depend on the order in which the directory lists
   * the files, through the glob or through the exact selection.
   */
  lemma ListingPermutation(name: string, mode: Setting, listing: seq<DirEntry>, listing': seq<DirEntry>)
    requires multiset(listing) == multiset(listing')
    ensures AllValuesOf(name, mode, listing) == AllValuesOf(name, mode, listing')
    ensures GlobAllValuesOf(name, mode, listing) == GlobAllValuesOf(name, mode, listing')
  {
    var s, s' := StoresForMetric(name, listing), StoresForMetric(name, listing');
    forall f ensures multiset(s)[f] == multiset(s')[f] {
      SelectionCounts(name, listing, f);
      SelectionCounts(name, listing', f);
    }
    ExportPermutation(mode, s, s');
    var g, g' := GlobStoresForMetric(name, listing), GlobStoresForMetric(name, listing');
    forall f ensures multiset(g)[f] == multiset(g')[f] {
      GlobSelectionCounts(name, listing, f);
      GlobSelectionCounts(name, listing', f);
    }
    ExportPermutation(mode, g, g');
  }

  // ---------------------------------------------------------------------------
  // The per-process metric store

  /** The value `get` reports for `key`: a key never written reads as 0. */
  function ValueOf(contents: map<Key, Blob>, key: Key): int
  {
    if key in contents then UnpackInt64(contents[key]) else 0
  }

  /** The blob `read_value` finds for `key`, the zero blob it first writes when `key` is new. */
  function StoredBlob(contents: map<Key, Blob>, key: Key): Blob
  {
    if key in contents then contents[key] else ZeroValue
  }

  lemma ZeroValueIsZero()
    ensures UnpackInt64(ZeroValue) == 0
  {
    assert ZeroValue[1..] == [0, 0, 0, 0, 0, 0, 0];
    assert [0, 0, 0, 0, 0, 0, 0][1..] == [0, 0, 0, 0, 0, 0];
    assert [0, 0, 0, 0, 0, 0][1..] == [0, 0, 0, 0, 0];
    assert [0, 0, 0, 0, 0][1..] == [0, 0, 0, 0];
    assert [0, 0, 0, 0][1..] == [0, 0, 0] && [0, 0, 0][1..] == [0, 0] && [0, 0][1..] == [0];
    assert UnpackLE([0, 0]) == 0;
    assert UnpackLE([0, 0, 0, 0]) == 0;
    assert UnpackLE([0, 0, 0, 0, 0, 0]) == 0;
  }

  /** `get` after `set` returns the value set, wrapped to 64 bits. */
  lemma SetThenGet(contents: map<Key, Blob>, labels: seq<Label>, val: int)
    ensures ValueOf(contents[StoreKey(labels) := PackInt64(val)], StoreKey(labels)) == Wrap64(val)
  {
    Int64RoundTrip(val);
  }

  /** `get` after `increment` returns the previous value plus the increment, wrapped to 64 bits. */
  lemma IncrementThenGet(contents: map<Key, Blob>, labels: seq<Label>, delta: int)
    ensures var key := StoreKey(labels);
      ValueOf(contents[key := PackInt64(ValueOf(contents, key) + delta)], key) == Wrap64(ValueOf(contents, key) + delta)
  {
    Int64RoundTrip(ValueOf(contents, StoreKey(labels)) + delta);
  }

  /** Writing the values of one label sequence leaves the value of every other one unchanged. */
  lemma OtherLabelsUnchanged(contents: map<Key, Blob>, written: seq<Label>, other: seq<Label>, v: Blob)
    requires written != other
    ensures ValueOf(contents[StoreKey(written) := v], StoreKey(other)) == ValueOf(contents, StoreKey(other))
  {
    if StoreKey(written) == StoreKey(other) {
      StoreKeyInjective(written, other);
    }
  }

  /** No key ends in a space or NUL, as no key `store_key` builds does. */
  predicate UnpaddedKeys(keys: seq<Key>)
  {
    forall i :: 0 <= i < |keys| ==> Unpadded(keys[i])
  }

  /** Writing the key of `labels` keeps every key unpadded. */
  lemma UnpaddedKept(before: seq<Key>, after: seq<Key>, labels: seq<Label>)
    requires UnpaddedKeys(before)
    requires after == before || after == before + [StoreKey(labels)]
    ensures UnpaddedKeys(after)
  {
    var k := StoreKey(labels);
    StoreKeyBytes(labels);
    if k != [] {
      assert k[|k| - 1] != Space && k[|k| - 1] != Nul;
    }
  }

  lemma UpdateTwice<K, V>(m: map<K, V>, once: map<K, V>, twice: map<K, V>, k: K, a: V, b: V)
    requires once == m[k := a] && twice == once[k := b]
    ensures twice == m[k := b]
  {
  }

  /** `MmapedDict.new(mmap_path)` and its `all_values`, for one file of the metric. */
  method ReadFile(content: seq<Byte>) returns (r: Result<seq<Entry>, StoreError>)
    ensures r == FileEntries(content)
  {
    var file := MmapedDict.Open(content);
    if file.Failure? {
      return Failure(MalformedFile);
    }
    var store := file.value;
    DecodedStorable(content);
    var pairs := store.AllValues();
    return Success(pairs.value);
  }

  /** `stores_data[label_set] << v` for each pair of one file, in file order. */
  method AddObservations<K(==)>(data: map<K, seq<int>>, ghost seen: seq<Observation<K>>, obs: seq<Observation<K>>)
    returns (data': map<K, seq<int>>)
    requires data == Collect(seen)
    ensures data' == Collect(seen + obs)
  {
    data' := data;
    var j := 0;
    assert seen + obs[..0] == seen;
    while j < |obs|
      invariant j <= |obs|
      invariant data' == Collect(seen + obs[..j])
    {
      assert seen + obs[..j + 1] == (seen + obs[..j]) + [obs[j]];
      CollectAppend(seen + obs[..j], obs[j]);
      data' := AddValue(data', obs[j]);
      j := j + 1;
    }
    assert obs[..j] == obs;
  }

  /**
   * The loop of `all_values` over the metric's files: every pair of every
   * file, in listing order, added to its label set's values.
   */
  method ReadListing(files: seq<DirEntry>) returns (r: Result<map<LabelSet, seq<int>>, StoreError>)
    ensures ListingObservations(files).Failure? ==> r == Failure(ListingObservations(files).error)
    ensures ListingObservations(files).Success? ==> r == Success(Collect(ListingObservations(files).value))
  {
    var data: map<LabelSet, seq<int>> := map[];
    ghost var seen: seq<Observation<LabelSet>> := [];
    var i := 0;
    while i < |files|
      invariant i <= |files|
      invariant ListingObservations(files[..i]) == Success(seen)
      invariant data == Collect(seen)
    {
      assert files[..i + 1][..i] == files[..i];
      var entries := ReadFile(files[i].content);
      if entries.Failure? {
        ListingFailureStays(files, i + 1);
        return Failure(MalformedFile);
      }
      data := AddObservations(data, seen, EntryObservations(entries.value));
      seen := seen + EntryObservations(entries.value);
      i := i + 1;
    }
    assert files[..i] == files;
    return Success(data);
  }

  // ---------------------------------------------------------------------------
  // Reading back what the stores wrote

  /** The values of the entries of several files, file after file and in file order within each. */
  function WrittenObservations(ess: seq<seq<Entry>>): (r: seq<Observation<LabelSet>>)
  {
    if ess == [] then [] else WrittenObservations(ess[..|ess| - 1]) + EntryObservations(ess[|ess| - 1])
  }

  /** A store's own file, read back, holds exactly the entries the store wrote. */
  lemma OwnFileReadBack(s: MetricStore)
    requires s.Valid() && s.dict.used < Two31
    ensures FileEntries(s.dict.m[..]) == Success(s.dict.entries)
  {
    assert forall i :: 0 <= i < |s.dict.entries| ==> KeySeq(s.dict.entries)[i] == s.dict.entries[i].key;
    StorableWhenSmall(s.dict);
    ReopenRoundTrip(s.dict);
  }

  /** A listing of the metric's own files is selected whole, in order. */
  lemma {:induction false} OwnFilesSelected(name: string, listing: seq<DirEntry>)
    requires forall i :: 0 <= i < |listing| ==> OwnedBy(name, listing[i].name)
    ensures StoresForMetric(name, listing) == listing
    decreases |listing|
  {
    if listing != [] {
      var n := |listing| - 1;
      var init, f := listing[..n], listing[n];
      OwnFilesSelected(name, init);
      LastSplit(listing);
      SelectedSnoc(name, init, f);
    }
  }

  lemma LastSplit<T>(s: seq<T>)
    requires s != []
    ensures s == s[..|s| - 1] + [s[|s| - 1]]
  {
  }

  lemma SelectedSnoc(name: string, listing: seq<DirEntry>, f: DirEntry)
    requires OwnedBy(name, f.name)
    ensures StoresForMetric(name, listing + [f]) == StoresForMetric(name, listing) + [f]
  {
    var l := listing + [f];
    assert l[..|l| - 1] == listing;
  }

  /** Files that decode to `ess` are read as the values of `ess`, file after file. */
  lemma {:induction false} ReadBackListing(listing: seq<DirEntry>, ess: seq<seq<Entry>>)
    requires |listing| == |ess|
    requires forall i :: 0 <= i < |listing| ==> FileEntries(listing[i].content) == Success(ess[i])
    ensures ListingObservations(listing) == Success(WrittenObservations(ess))
    decreases |listing|
  {
    if listing != [] {
      var n := |listing| - 1;
      ReadBackListing(listing[..n], ess[..n]);
    }
  }

  /**
   * What the stores of one metric write is what `all_values` reads back:
   * listing each store's file (each under 2^31 bytes) exports the values
   * of the stores' entries, file after file, grouped by parsed label set
   * and folded with the mode.
   */
  lemma StoresReadBack(name: string, mode: Setting, stores: seq<MetricStore>, listing: seq<DirEntry>, ess: seq<seq<Entry>>)
    requires |stores| == |listing| == |ess|
    requires forall i :: 0 <= i < |stores| ==>
      stores[i].Valid() && stores[i].metricName == name && stores[i].dict.used < Two31
    requires forall i :: 0 <= i < |stores| ==>
      listing[i] == DirEntry(FileName(name, stores[i].pid), stores[i].dict.m[..]) && ess[i] == stores[i].dict.entries
    ensures NonEmptyGroups(Groups(WrittenObservations(ess)))
    ensures AllValuesOf(name, mode, listing) == Aggregated(mode, Groups(WrittenObservations(ess)))
  {
    forall i | 0 <= i < |listing|
      ensures OwnedBy(name, listing[i].name) && FileEntries(listing[i].content) == Success(ess[i])
    {
      OwnedByOwnFiles(name, stores[i].pid);
      OwnFileReadBack(stores[i]);
    }
    OwnFilesSelected(name, listing);
    ReadBackListing(listing, ess);
    GroupsNonEmpty(WrittenObservations(ess));
  }

  class MetricStore {
    const metricName: string
    const dir: string
    /** `Process.pid` of the process that owns the store. */
    const pid: nat
    /** `@values_aggregation_mode`. */
    const mode: Setting
    /** `internal_store`: the dictionary mapped from this process's file. */
    const dict: MmapedDict

    /** The dictionary is well formed, and no key ends in a space or NUL. */
    ghost predicate Valid()
      reads this, dict, dict.m
    {
      dict.Valid() && UnpaddedKeys(KeySeq(dict.entries))
    }

    /** The store starts on a new, empty file for this process. */
    constructor (name: string, dir: string, pid: nat, mode: Setting)
      ensures Valid() && fresh(dict) && fresh(dict.m)
      ensures metricName == name && this.dir == dir && this.pid == pid && this.mode == mode
      ensures dict.Contents() == map[]
    {
      NewFileIsBlank();
      var blank := MmapedDict.Open([]);
      metricName := name;
      this.dir := dir;
      this.pid := pid;
      this.mode := mode;
      dict := blank.value;
    }

    /** `mmap_filename`: the process's own file of the metric, inside the store's directory. */
    function MmapFilename(): string
    {
      ProcessFile(dir, metricName, pid)
    }

    /** `set`: write `val` under the key of `labels`. */
    method Set(labels: seq<Label>, val: int)
      requires Valid()
      modifies dict, dict.m
      ensures Valid() && (fresh(dict.m) || dict.m == old(dict.m))
      ensures dict.Contents() == old(dict.Contents())[StoreKey(labels) := PackInt64(val)]
    {
      dict.WriteValue(StoreKey(labels), PackInt64(val));
      UnpaddedKept(old(KeySeq(dict.entries)), KeySeq(dict.entries), labels);
    }

    /**
     * `increment`: read the value of `labels` (0 if new) and write it back
     * plus `delta` (`by:` in the source).
     */
    method Increment(labels: seq<Label>, delta: int := 1)
      requires Valid()
      modifies dict, dict.m
      ensures Valid() && (fresh(dict.m) || dict.m == old(dict.m))
      ensures dict.Contents() == old(dict.Contents())[StoreKey(labels) := PackInt64(ValueOf(old(dict.Contents()), StoreKey(labels)) + delta)]
    {
      var value := Get(labels);
      ghost var c1 := dict.Contents();
      Set(labels, value + delta);
      UpdateTwice(old(dict.Contents()), c1, dict.Contents(), StoreKey(labels), StoredBlob(old(dict.Contents()), StoreKey(labels)), PackInt64(value + delta));
    }

    /** `get`: the value of `labels`; reading a new key stores it with value 0. */
    method Get(labels: seq<Label>) returns (v: int)
      requires Valid()
      modifies dict, dict.m
      ensures Valid() && (fresh(dict.m) || dict.m == old(dict.m))
      ensures v == ValueOf(old(dict.Contents()), StoreKey(labels))
      ensures dict.Contents() == old(dict.Contents())[StoreKey(labels) := StoredBlob(old(dict.Contents()), StoreKey(labels))]
    {
      ZeroValueIsZero();
      var value := dict.ReadValue(StoreKey(labels));
      UnpaddedKept(old(KeySeq(dict.entries)), KeySeq(dict.entries), labels);
      v := UnpackInt64(value);
    }

    /**
     * `all_values`: every value in the files of the metric's processes,
     * grouped by label set and folded with the aggregation mode.
     */
    method AllValues(listing: seq<DirEntry>) returns (r: Result<map<LabelSet, int>, StoreError>)
      ensures r == AllValuesOf(metricName, mode, listing)
    {
      var files := StoresForMetric(metricName, listing);
      var data := ReadListing(files);
      if data.Failure? {
        return Failure(data.error);
      }
      ghost var obs := ListingObservations(files).value;
      CollectIsGroups(obs);
      GroupsNonEmpty(obs);
      r := Aggregated(mode, data.value);
    }
  }

  class MmapStore {
    /** `@store_settings[:dir]`. */
    const dir: string

    /** `MmapStore.new(dir:)`; creating the directory is outside the model. */
    constructor (dir: string)
      ensures this.dir == dir
    {
      this.dir := dir;
    }

    /**
     * `for_metric`: the metric's settings merged over the defaults and
     * validated, then a store for this process with the resulting mode.
     */
    method ForMetric(name: string, pid: nat, settings: Settings := map[]) returns (r: Result<MetricStore, StoreError>)
      ensures r.Failure? <==> ValidateMetricSettings(Merged(settings)).Failure?
      ensures r.Failure? ==> r.error == ValidateMetricSettings(Merged(settings)).error
      ensures r.Success? ==>
        && fresh(r.value) && fresh(r.value.dict) && fresh(r.value.dict.m) && r.value.Valid()
        && r.value.metricName == name && r.value.dir == dir && r.value.pid == pid
        && r.value.mode == Merged(settings)[AggregationKey] && r.value.mode in AggregationModes
        && r.value.dict.Contents() == map[]
    {
      var merged := Merged(settings);
      var valid := ValidateMetricSettings(merged);
      if valid.Failure? {
        return Failure(valid.error);
      }
      var store := new MetricStore(name, dir, pid, merged[AggregationKey]);
      return Success(store);
    }
  }
}
