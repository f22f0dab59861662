# Prometheus Ruby client data stores, modelled in Dafny

This project models two of the experimental metric data stores of the
Prometheus Ruby client, and proves properties of the model.

- **`MmapStore`** gives each process one file per metric. The file is a
  memory-mapped dictionary (`MmapedDict`) from query-string keys to 8-byte
  values. To export a metric, the store lists the metric's files and reads
  every pair in them. It decodes each key back into a label set, groups the
  values by label set, and folds each group with the metric's aggregation
  mode (`sum`, `max` or `min`).
- **`CentralHashExample`** keeps every metric of the process in one shared
  hash. The key is the metric's labels merged with `"__metric_name" => name`.

## Modules and where they sit in the source

- `bytes.dfy` (`Bytes`): bytes and the fixed-width encodings.
  - `pack('l')`/`unpack('l')`, little-endian and wrapping at 32 bits.
  - The 8-byte value slot.
- `label_codec.dfy` (`LabelCodec`):
  - `store_key`, with `CGI.escape` on byte strings (section 2.1 of RFC 3986, space written as `+`).
  - The read side's `CGI::parse`, keeping the first value of each name.
- `mmaped_dict.dfy` (`MmapedDictionary`): the file layout and the class `MmapedDict`.
  - The class is a byte `array` (the mapping) with the `used`, `capacity` and `positions` fields.
  - Its methods update these in place: `init_value`'s doubling loop, `write_value`, `read_value`, and the scanning loop of `read_all_values`.
  - A ghost sequence of entries is the abstract contents.
- `aggregation.dfy` (`Aggregation`), for `all_values`:
  - `aggregate_values`, the grouping into `stores_data`, and the `each_with_object` fold.
  - The source's own example of two processes.
- `settings.dfy` (`StoreSettings`): metric settings and the errors the stores raise.
- `store_files.dfy` (`StoreFiles`): file names, `File.join`, the glob selection and the exact selection.
- `mmap_store.dfy` (`MmapStore`): settings validation, the class `MetricStore` (set, increment, get, all_values) and the class `MmapStore` (`for_metric`).
- `central_hash.dfy` (`CentralHash`): the shared hash as the class `CentralHashExample`.
  - Its metric stores are objects of class `MetricStore` that all alias that one hash.

How the model takes I/O:

- The process id is a parameter.
- The directory listing that `Dir.glob` and `MmapedDict.new` see is a parameter of `all_values`: the names of the entries, in listing order, with their bytes.
- A metric store's own dictionary is opened on a new, empty file.

## Model

| member | source | states |
|---|---|---|
| Bytes.Int32RoundTrip | data_stores/mmap_store.rb:212-215 | a non-negative `used` below 2^31 written with `pack('l')` is read back unchanged by `unpack('l')` |
| Bytes.Int32Rewrite | data_stores/mmap_store.rb:212-215 | a non-negative header read with `unpack('l')` and written back gives the same four bytes |
| Bytes.Int64RoundTrip | data_stores/mmap_store.rb:235-245 | a value written into a slot reads back as itself wrapped to 64 bits |
| LabelCodec.Escape | data_stores/mmap_store.rb:147 | an escaped name or value is ASCII and holds no `&`, `;`, `=`, space or NUL |
| LabelCodec.UnescapeEscape | data_stores/mmap_store.rb:122-124 | `CGI.unescape` undoes `CGI.escape` on every byte string |
| LabelCodec.StoreKeyBytes | data_stores/mmap_store.rb:146-148 | every key `store_key` builds is ASCII with no space or NUL, so the dictionary stores it unchanged |
| LabelCodec.StoreKeyRoundTrip | data_stores/mmap_store.rb:122-124 | splitting and unescaping `store_key(labels)` gives back the (name, value) pairs in order |
| LabelCodec.StoreKeyInjective | data_stores/mmap_store.rb:146-148 | two label sequences with the same key are the same sequence |
| LabelCodec.ParseStoreKey | data_stores/mmap_store.rb:118-124 | for labels with distinct names, `CGI::parse` of the key, first value per name, is exactly the label hash |
| MmapedDictionary.EntryAlignment | data_stores/mmap_store.rb:266-268 | the padding is 1 to 8 bytes, the value starts on an 8-byte boundary, and every entry is a multiple of 8 bytes and at least 16 |
| MmapedDictionary.EncodeEntry | data_stores/mmap_store.rb:267-268 | the packed entry is `4 + len + pad + 8` bytes long |
| MmapedDictionary.ScanEntry | data_stores/mmap_store.rb:285-290 | a decoded entry's value slot lies after its length field and inside the buffer |
| MmapedDictionary.StripTrailing | data_stores/mmap_store.rb:287 | `unpack('A')` leaves no trailing space or NUL and never lengthens the key |
| MmapedDictionary.MmapedDict.Open | data_stores/mmap_store.rb:198-221 | opens exactly the files that decode; the mapping is the file, grown to 1 MiB of zeros when empty, with the decoded `used` (8 for a zero header) written back into the header; `used` and the entries are the decoded ones and the index is consistent with them |
| MmapedDictionary.MmapedDict.ReadAllValues | data_stores/mmap_store.rb:281-295 | the scanning loop yields the (key, value, offset) triples the layout defines |
| MmapedDictionary.MmapedDict.AllValues | data_stores/mmap_store.rb:224-226 | on a valid dictionary whose keys are all storable, the pairs are exactly its entries in file order |
| MmapedDictionary.MmapedDict.Extend | data_stores/mmap_store.rb:270 | the mapping doubles; the old bytes are kept and the new half is zero |
| MmapedDictionary.MmapedDict.Reserve | data_stores/mmap_store.rb:269-271 | after the loop the entry fits; the capacity is the old one doubled some number of times and less than twice what is needed when it grew |
| MmapedDictionary.MmapedDict.InitValue | data_stores/mmap_store.rb:265-278 | a new key is appended with value 0.0, `used` grows by the entry size and the new key's position is `used - 8` |
| MmapedDictionary.MmapedDict.Append | data_stores/mmap_store.rb:272-277 | writing the entry and then the header keeps the layout valid and adds exactly that entry |
| MmapedDictionary.MmapedDict.Overwrite | data_stores/mmap_store.rb:243-245 | storing into an indexed slot changes that key's value only, and moves no key |
| MmapedDictionary.MmapedDict.WriteValue | data_stores/mmap_store.rb:238-246 | the contents afterwards are the old contents with `key` set to `value`; a new key is appended at the end of the index |
| MmapedDictionary.MmapedDict.Load | data_stores/mmap_store.rb:233-235 | reading at an indexed key's position returns that key's value |
| MmapedDictionary.MmapedDict.ReadValue | data_stores/mmap_store.rb:228-236 | returns the key's value, or 0.0 for a key not present, which is then stored |
| MmapedDictionary.ScanRoundTrip | data_stores/mmap_store.rb:281-295 | scanning a dictionary's own buffer recovers exactly its entries with their value offsets |
| MmapedDictionary.PositionsAligned | data_stores/mmap_store.rb:234-235 | every indexed value offset is 8-byte aligned and its slot lies below `used` |
| MmapedDictionary.ReopenRoundTrip | data_stores/mmap_store.rb:211-219 | re-opening a dictionary's buffer finds the same `used` and entries and rebuilds the same position index |
| MmapedDictionary.NewFileIsBlank | data_stores/mmap_store.rb:200-215 | an empty file opens as a blank dictionary with `used = 8` |
| MmapedDictionary.DecodedStorable | data_stores/mmap_store.rb:285-287 | every key of a file that opens is stored and read back unchanged |
| Aggregation.Inject | data_stores/mmap_store.rb:169-170 | `inject` is nil exactly for no values, and otherwise the total |
| Aggregation.MaxOf | data_stores/mmap_store.rb:171-172 | `max` is nil exactly for no values, and otherwise one of them that no other exceeds |
| Aggregation.MinOf | data_stores/mmap_store.rb:173-174 | `min` is nil exactly for no values, and otherwise one of them that no other undercuts |
| Aggregation.AggregateValues | data_stores/mmap_store.rb:168-179 | fails with the invalid-mode error exactly when the mode is not one of the three; otherwise a value exactly when there are values |
| Aggregation.TotalPermutation | data_stores/mmap_store.rb:170 | the sum does not depend on the order of the values |
| Aggregation.AggregatePermutation | data_stores/mmap_store.rb:168-179 | the folded value of one group does not depend on the order of its values |
| Aggregation.GroupPermutation | data_stores/mmap_store.rb:118-126 | reading the same observations in another order gives each label set the same values in another order |
| Aggregation.ObservationPermutation | data_stores/mmap_store.rb:114-137 | reading the same observations in another order exports the same label sets with the same folded values, or fails the same way |
| Aggregation.CollectIsGroups | data_stores/mmap_store.rb:110-126 | adding values one at a time to `stores_data` builds exactly each label set with its values in reading order |
| Aggregation.GroupsNonEmpty | data_stores/mmap_store.rb:110-126 | every group in `stores_data` holds at least one value |
| Aggregation.GroupsAppend | data_stores/mmap_store.rb:126 | one more value extends its own label set's group and no other |
| Aggregation.LabelsExported | data_stores/mmap_store.rb:135-137 | with a valid mode, the export succeeds and every label set read is among its keys |
| Aggregation.Aggregated | data_stores/mmap_store.rb:134-137 | the fold of all groups fails exactly when there is a group and the mode is invalid; otherwise it exports the same label sets |
| Aggregation.ExampleGroups | spec/mmap_store_spec.rb:53-75 | the six values two processes write group as bar [1, 3], baz [7, 2], yyy [3], zzz [1] |
| Aggregation.TwoProcesses | spec/mmap_store_spec.rb:53-143 | those groups export 4, 9, 3, 1 under sum, 3, 7, 3, 1 under max and 1, 2, 3, 1 under min |
| StoreFiles.Decimal | data_stores/mmap_store.rb:156 | `pid.to_s` is a non-empty string of digits with no leading zero |
| StoreFiles.DecimalRoundTrip | data_stores/mmap_store.rb:156 | the digits of a process id read back as that id |
| StoreFiles.JoinPathBaseName | data_stores/mmap_store.rb:157 | `File.join` keeps the directory as a prefix and ends in `/` followed by the file name, adding at most that one `/` |
| StoreFiles.ProcessFile | data_stores/mmap_store.rb:155-158 | the process's file lies inside the store's directory and is one its metric owns |
| StoreFiles.GlobMatchesOwnFiles | data_stores/mmap_store.rb:160-162 | the glob selects every file the metric's processes write |
| StoreFiles.GlobMatchesLongerName | data_stores/mmap_store.rb:160-162 | the glob of `foo` also selects the files of a different metric `foo___bar` |
| StoreFiles.OwnedByOwnFiles | data_stores/mmap_store.rb:155-158 | every file a process writes for the metric is owned by that metric |
| StoreFiles.NotOwnedByOtherName | data_stores/mmap_store.rb:155-162 | no file of another metric name is owned by the metric |
| StoreFiles.OwnedByExactly | data_stores/mmap_store.rb:155-162 | a metric owns a process's file if and only if the file was written for that metric |
| MmapStore.Merged | data_stores/mmap_store.rb:32-40 | merging over the defaults keeps every given setting and adds `aggregation: :sum` only when none is given |
| MmapStore.ValidateMetricSettings | data_stores/mmap_store.rb:50-61 | succeeds exactly when the only key is the symbol `:aggregation` with a valid mode; a missing or invalid mode is reported before an extra key, and a string key `"aggregation"` is an extra key |
| MmapStore.AcceptedSettings | data_stores/mmap_store.rb:39-61 | `for_metric` accepts exactly settings that hold nothing but, at most, a valid aggregation; the mode is that one, or sum |
| MmapStore.SettingsExamples | spec/mmap_store_spec.rb:19-37 | `{}` and `{aggregation: :sum}` are accepted; `{aggregation: :invalid}`, `{some_setting: true}` and `{"aggregation" => :max}` are refused |
| MmapStore.GlobStoresForMetric | data_stores/mmap_store.rb:160-162 | the listed files the glob matches, in listing order |
| MmapStore.StoresForMetric | data_stores/mmap_store.rb:160-162 | the listed files the metric owns, in listing order; none when no entry is owned |
| MmapStore.WrittenPairsParsed | data_stores/mmap_store.rb:118-124 | pairs written under `store_key(labels)` keys are read back, one per pair and in file order, as those label hashes with their values |
| MmapStore.ListingFailureStays | data_stores/mmap_store.rb:114-132 | once one file cannot be read, reading the whole listing fails in the same way |
| MmapStore.NoFilesNoValues | data_stores/mmap_store.rb:109-138 | a directory with no file of the metric exports nothing |
| MmapStore.GlobSelectsOtherFile | data_stores/mmap_store.rb:160-162 | a lone file of `foo___bar` is selected by the glob of `foo` and not by the exact selection |
| MmapStore.SingleFileObservations | data_stores/mmap_store.rb:114-127 | a listing of one readable file yields that file's pairs |
| MmapStore.GlobExportsOtherFile | data_stores/mmap_store.rb:109-138 | through the glob, metric `foo` exports a label set read from a file of `foo___bar` |
| MmapStore.ExactIgnoresOtherFile | data_stores/mmap_store.rb:109-138 | with no selected file, the export is empty |
| MmapStore.GlobReadsOtherMetric | data_stores/mmap_store.rb:109-162 | as written, metric `foo` exports values of metric `foo___bar`, while the exact selection exports nothing |
| MmapStore.SetThenGet | data_stores/mmap_store.rb:89-107 | `get` after `set` returns the value set, wrapped to 64 bits |
| MmapStore.IncrementThenGet | data_stores/mmap_store.rb:95-107 | `get` after `increment` returns the previous value plus the increment, wrapped to 64 bits |
| MmapStore.OtherLabelsUnchanged | data_stores/mmap_store.rb:89-107 | writing one label sequence's value leaves every other label sequence's value unchanged |
| MmapStore.ReadFile | data_stores/mmap_store.rb:116-118 | opening a metric file and taking its `all_values` gives the pairs the file decodes to, or the malformed-file error |
| MmapStore.AddObservations | data_stores/mmap_store.rb:118-127 | the inner loop adds one file's values to `stores_data` exactly as grouping all values read so far |
| MmapStore.ReadListing | data_stores/mmap_store.rb:114-132 | the outer loop builds the grouping of every value of every file, or fails on the first malformed file |
| MmapStore.ListingReadable | data_stores/mmap_store.rb:114-132 | reading the selected files fails, as a malformed file, exactly when one of them cannot be read; otherwise it gives every file's values, file after file |
| MmapStore.AllObservationsPermutation | data_stores/mmap_store.rb:114-127 | reading the same files in another order reads the same values in another order |
| MmapStore.ExportPermutation | data_stores/mmap_store.rb:114-137 | reading the same files in another order exports the same result |
| MmapStore.SelectionCounts | data_stores/mmap_store.rb:155-162 | the exact selection keeps each listed file of the metric as often as it is listed, and drops every other file |
| MmapStore.GlobSelectionCounts | data_stores/mmap_store.rb:160-162 | the glob keeps each listed file it matches as often as it is listed, and drops every other file |
| MmapStore.ListingPermutation | data_stores/mmap_store.rb:109-162 | `all_values` gives the same result whatever order the directory lists the files in, through the glob and through the exact selection |
| MmapStore.UnpaddedKept | data_stores/mmap_store.rb:89-107 | writing a `store_key` keeps every key of the store's dictionary free of a trailing space or NUL |
| MmapStore.OwnFileReadBack | data_stores/mmap_store.rb:116-118 | a store's own file, opened and read, gives exactly the entries the store wrote, while it holds fewer than 2^31 bytes |
| MmapStore.OwnFilesSelected | data_stores/mmap_store.rb:155-162 | a listing made only of the metric's own files is selected whole, in order |
| MmapStore.ReadBackListing | data_stores/mmap_store.rb:114-127 | files that decode to given entries are read as those entries' values, file after file |
| MmapStore.StoresReadBack | data_stores/mmap_store.rb:89-162 | what the stores of one metric write is what `all_values` reads back: their files export the values of the stores' entries, grouped by parsed label set and folded with the mode |
| MmapedDictionary.StorableWhenSmall | data_stores/mmap_store.rb:267-287 | in a dictionary whose `used` is below 2^31, every key without a trailing space or NUL is written and scanned back whole |
| MmapStore.MetricStore.constructor | data_stores/mmap_store.rb:66-72 | a new store keeps its name, directory, process and mode, over an empty dictionary |
| MmapStore.MetricStore.Set | data_stores/mmap_store.rb:89-93 | the dictionary afterwards is the old one with the labels' key set to the value; it stays well formed with only unpadded keys |
| MmapStore.MetricStore.Increment | data_stores/mmap_store.rb:95-101 | the labels' key afterwards holds its old value, 0 when unseen, plus `by`; no other key changes |
| MmapStore.MetricStore.Get | data_stores/mmap_store.rb:103-107 | returns the labels' value, 0 when unseen; an unseen key is then stored with 0 |
| MmapStore.MetricStore.AllValues | data_stores/mmap_store.rb:109-138 | the export is every owned file's values grouped by parsed label set and folded with the mode, or the first error |
| MmapStore.MmapStore.ForMetric | data_stores/mmap_store.rb:39-46 | fails exactly when the merged settings are invalid, with the same error; otherwise a new store with the merged mode; the settings default to `{}` |
| CentralHash.StoreKey | data_stores/central_hash_example.rb:82-86 | the key holds every label except a `"__metric_name"` one, and the metric's name under `"__metric_name"` |
| CentralHash.StoreKeyOfStrip | data_stores/central_hash_example.rb:74-86 | stripping the name from a key of the metric and merging it back gives the key |
| CentralHash.StripOfStoreKey | data_stores/central_hash_example.rb:74-86 | merging in the name and stripping it gives back labels that have no name key |
| CentralHash.StoreKeysOfOtherMetrics | data_stores/central_hash_example.rb:82-86 | keys of two different metrics never coincide |
| CentralHash.StoreKeyInjective | data_stores/central_hash_example.rb:82-86 | label sets without the name key that give the same key are equal |
| CentralHash.View | data_stores/central_hash_example.rb:69-78 | the export holds exactly the label sets without the name key whose merged key is stored, each with the stored value |
| CentralHash.ViewUpdate | data_stores/central_hash_example.rb:69-78 | storing under a key changes a metric's export only if the key is that metric's, and then only at its stripped labels |
| CentralHash.SetThenView | data_stores/central_hash_example.rb:51-55 | after `set`, the metric's export shows the value at exactly those labels, and nothing else changes |
| CentralHash.OtherMetricUnchanged | data_stores/central_hash_example.rb:72-86 | writes for one metric change neither the values read nor the export of another metric sharing the hash |
| CentralHash.ReadAppearsInView | data_stores/central_hash_example.rb:17 | reading unseen labels stores 0.0 for them, so they appear in the export |
| CentralHash.ReadOfKnownKey | data_stores/central_hash_example.rb:63-67 | reading a stored key leaves the hash unchanged |
| CentralHash.CentralHashExample.constructor | data_stores/central_hash_example.rb:16-19 | the shared hash starts empty |
| CentralHash.CentralHashExample.ForMetric | data_stores/central_hash_example.rb:21-38 | `validate_metric_settings` fails, with the no-settings error, exactly for non-empty settings, which default to `{}`; otherwise a new metric store sharing this hash |
| CentralHash.MetricStore.constructor | data_stores/central_hash_example.rb:41-45 | the metric store keeps the shared store and the metric name |
| CentralHash.MetricStore.Set | data_stores/central_hash_example.rb:51-55 | the hash afterwards is the old one with the labels' key set to the value |
| CentralHash.MetricStore.Increment | data_stores/central_hash_example.rb:57-61 | the labels' key afterwards holds its old value, 0.0 when unseen, plus `by` |
| CentralHash.MetricStore.Get | data_stores/central_hash_example.rb:63-67 | through the hash's default block (central_hash_example.rb line 17): returns the labels' value, 0.0 when unseen; an unseen key is then stored with 0.0 |
| CentralHash.MetricStore.AllValues | data_stores/central_hash_example.rb:69-78 | the loop over a copy of the hash returns exactly the metric's export, whatever order it visits the keys in |

## Left out

- Locking: the read-write locks, `synchronize`, `in_process_sync` and `with_file_lock`/`flock` (data_stores/mmap_store.rb:71, 81-87, 142-144, 255-260; data_stores/central_hash_example.rb:18, 27-29). Each block runs as if alone. The atomicity the locks give between threads and processes is a concurrency property.
- `close` (data_stores/mmap_store.rb:248-253): its calls to `msync`, `munmap`, `fsync` and `close` have no sequential effect on the model.
- The file system:
  - `FileUtils.mkdir_p`, `File.open`, `truncate` and `Mmap.new` are not modelled.
  - The bytes of a file and the directory listing are parameters.
  - A store's own writes reach another store only through the listing the caller passes.
- `Process.pid` is a constructor parameter.
- MmapStore.MetricStore.constructor: opens the dictionary on a new empty file when the store is created. The source opens `internal_store` lazily. If a file with the same process id already exists, the source continues from it.
- IEEE doubles are not modelled:
  - A value is an 8-byte slot holding a 64-bit two's-complement integer.
  - `to_f`, float rounding, NaN and infinities, and `unpack('d')` are not represented.
  - The central hash uses exact reals.
- MmapStore.MetricStore.Set: stores the value modulo 2^64, where the source stores `val.to_f`, the nearest double. The two differ for every value outside the signed 64-bit range, where Bytes.Wrap64 wraps. They also differ for integers above 2^53 in magnitude that a double cannot represent exactly, such as 2^53 + 1, and for every fractional value, which the model has no way to hold.
- MmapStore.MetricStore.Increment: adds integers modulo 2^64 instead of adding doubles.
- Bytes: native byte order is taken to be little-endian.
- The `metric_type:` argument of both `for_metric` methods is unused by the source and is not a parameter here.
- MmapedDictionary.EncodeEntry: the length field is the key's byte count. The source writes `key.length`, a character count, and `A#{padded.length}` packs that many bytes (data_stores/mmap_store.rb:267-268), so a key with non-ASCII characters is cut short and cannot be read back. The model does not capture that loss. Every key `store_key` builds is ASCII (LabelCodec.StoreKeyBytes), so for those keys the two agree.
- MmapStore.MetricStore.Valid: the store's invariant says only that no key ends in a space or NUL. It does not say that every key is a `store_key`, which is what the source's keys are.
- Mapping size: `init_value` writes the entry with an inclusive range one byte longer than the entry (data_stores/mmap_store.rb:272). The model writes exactly the entry's bytes.
- MmapedDictionary.MmapedDict.Open: a file that no dictionary could have written is refused as malformed. This covers a short or negative header, an entry running past `used`, bytes that re-encode differently, and repeated keys. The source reads such a file without checks, so its behaviour there is undefined. As a result `all_values` reports the error.
- MmapedDictionary.ReopenRoundTrip: requires keys that do not end in a space or NUL, and `used` below 2^31:
  - `unpack('A')` strips a trailing space or NUL from a key.
  - `pack('l')` wraps at 2^31.
  - Keys built by `store_key` always meet both conditions (LabelCodec.StoreKeyBytes).
- LabelCodec:
  - Names and values arrive as the bytes of their `to_s`.
  - Decoded names are kept as byte strings rather than turned back into symbols with `to_sym`.
  - `CGI.escape` follows section 2.1 of RFC 3986 with space written as `+`, as CGI does.
- LabelCodec.ParseStoreKey: assumes that the names' `to_s` are distinct. A Ruby label hash can hold two keys with the same `to_s`: `{foo: "a", "foo" => "b"}` gives the key `foo=a&foo=b`. `CGI::parse` then keeps `a` for `foo`, while `LabelMap` keeps the last value, `b`. So the lemma does not say what such a hash reads back as.
- Hash iteration order: the model's grouping and export are maps, and a Ruby hash compares equal whatever its insertion order. The order in which files are listed is covered by MmapStore.ListingPermutation.
- Other repository parts are not part of this model: the Redis, PStore and concurrent-hash stores, the benchmarks and the stress tests.

## Findings

| source | as written | input that shows it | evidently intended | confidence | as-written member | corrected member |
|---|---|---|---|---|---|---|
| data_stores/mmap_store.rb:160-162 | `stores_for_metric` globs `metric_<name>___*`, which also matches the files of any metric whose name is `<name>___` followed by more | metrics `foo` and `foo___bar` in one directory: `metric_foo___bar___123.mmap` matches `metric_foo___*`, so `foo`'s `all_values` includes `foo___bar`'s label sets | read only the files named `metric_<name>___<digits>.mmap`, among them every file `mmap_filename` writes for that metric | medium, not executed | MmapStore.GlobReadsOtherMetric (with StoreFiles.GlobMatchesLongerName, MmapStore.GlobAllValuesOf) | StoreFiles.OwnedByExactly (with MmapStore.StoresForMetric, MmapStore.MetricStore.AllValues) |
