/**
 * `MmapedDict`: a dictionary from byte-string keys to 8-byte values laid out
 * in one growable byte buffer (the memory-mapped file).
 *
 *   bytes 0..3   `used`, the number of meaningful bytes, as `pack('l')`
 *   bytes 4..7   padding
 *   from 8       entries, appended in insertion order and never moved:
 *                [int32 key length][key][1..8 spaces][8-byte value]
 *
 * The padding is `8 - (len + 4) % 8` bytes, so every entry is a multiple of
 * 8 bytes long and every value starts on an 8-byte boundary.
 */
module MmapedDictionary {
  import opened Bytes
  import opened Wrappers

  type Key = seq<Byte>

  /** The 8 bytes of one value (a double in the source; opaque here). */
  type Blob = b: seq<Byte> | |b| == 8 witness [0, 0, 0, 0, 0, 0, 0, 0]

  const HeaderSize: nat := 8
  const InitialMmapSize: nat := 1024 * 1024

  /** `[0.0].pack('d')`: eight zero bytes. */
  const ZeroValue: Blob := [0, 0, 0, 0, 0, 0, 0, 0]

  datatype Entry = Entry(key: Key, value: Blob)

  /** One triple `read_all_values` yields: key, value and the offset of the value. */
  datatype Item = Item(key: Key, value: Blob, pos: nat)

  datatype DictError = Malformed

  /** A decoded file: its `used` count and its entries in file order. */
  datatype Image = Image(used: nat, entries: seq<Entry>)

  /** `c` doubled `j` times, the capacities the mapping grows through. */
  function Doubled(c: nat, j: nat): (r: nat)
    ensures c <= r
  {
    if j == 0 then c else 2 * Doubled(c, j - 1)
  }

  // ---------------------------------------------------------------------------
  // Entry layout

  /** Padding after a key of `len` bytes: `8 - (len + 4) % 8`, never 0. */
  function Pad(len: nat): nat
  {
    8 - (len + 4) % 8
  }

  function EntrySize(len: nat): nat
  {
    4 + len + Pad(len) + 8
  }

  /** The padding is 1 to 8 bytes and leaves the value, and the next entry, 8-byte aligned. */
  lemma EntryAlignment(len: nat)
    ensures 1 <= Pad(len) <= 8
    ensures (4 + len + Pad(len)) % 8 == 0
    ensures EntrySize(len) % 8 == 0 && EntrySize(len) >= 16
  {
  }

  function Spaces(n: nat): (r: seq<Byte>)
    ensures |r| == n && forall i :: 0 <= i < n ==> r[i] == Space
  {
    if n == 0 then [] else [Space] + Spaces(n - 1)
  }

  /** `[key.length, padded, value].pack("lA#{padded.length}d")`. */
  function EncodeEntry(e: Entry): (r: seq<Byte>)
    ensures |r| == EntrySize(|e.key|)
  {
    PackInt32(|e.key|) + e.key + Spaces(Pad(|e.key|)) + e.value
  }

  /** The entries region, bytes 8 to `used`. */
  function Encode(es: seq<Entry>): seq<Byte>
  {
    if es == [] then [] else EncodeEntry(es[0]) + Encode(es[1..])
  }

  function KeySeq(es: seq<Entry>): (r: seq<Key>)
    ensures |r| == |es| && forall i :: 0 <= i < |es| ==> r[i] == es[i].key
  {
    seq(|es|, i requires 0 <= i < |es| => es[i].key)
  }

  function KeySet(es: seq<Entry>): set<Key>
  {
    set i | 0 <= i < |es| :: es[i].key
  }

  predicate DistinctKeys(es: seq<Entry>)
  {
    forall i, j :: 0 <= i < j < |es| ==> es[i].key != es[j].key
  }

  /** Total length of the entries for `keys`. */
  function Size(keys: seq<Key>): nat
  {
    if keys == [] then 0 else EntrySize(|keys[0]|) + Size(keys[1..])
  }

  /** Offset of the `j`-th value, counted from the start of the entries region. */
  function SlotOffset(keys: seq<Key>, j: nat): nat
    requires j < |keys|
  {
    if j == 0 then 4 + |keys[0]| + Pad(|keys[0]|)
    else EntrySize(|keys[0]|) + SlotOffset(keys[1..], j - 1)
  }

  /** What scanning an encoded region starting at `base` yields. */
  function Items(es: seq<Entry>, base: nat): (r: seq<Item>)
    ensures |r| == |es|
  {
    if es == [] then []
    else
      var k := es[0].key;
      [Item(k, es[0].value, base + 4 + |k| + Pad(|k|))] + Items(es[1..], base + EntrySize(|k|))
  }

  function EntriesOf(items: seq<Item>): (r: seq<Entry>)
    ensures |r| == |items| && forall i :: 0 <= i < |items| ==> r[i] == Entry(items[i].key, items[i].value)
  {
    seq(|items|, i requires 0 <= i < |items| => Entry(items[i].key, items[i].value))
  }

  /** The position index built from scanned items, `positions[key] = pos` for each in turn. */
  function IndexOf(items: seq<Item>): map<Key, nat>
  {
    if items == [] then map[]
    else IndexOf(items[..|items| - 1])[items[|items| - 1].key := items[|items| - 1].pos]
  }

  /** The dictionary's contents: each key with its value. */
  function ToMap(es: seq<Entry>): map<Key, Blob>
  {
    if es == [] then map[]
    else ToMap(es[..|es| - 1])[es[|es| - 1].key := es[|es| - 1].value]
  }

  // ---------------------------------------------------------------------------
  // Reading the buffer back

  /** `unpack("A#{len}")`: trailing spaces and NULs are stripped. */
  function StripTrailing(s: seq<Byte>): (r: seq<Byte>)
    ensures |r| <= |s|
    ensures r == [] || (r[|r| - 1] != Space && r[|r| - 1] != Nul)
  {
    if s != [] && (s[|s| - 1] == Space || s[|s| - 1] == Nul) then StripTrailing(s[..|s| - 1]) else s
  }

  /** A key that survives a write and a scan unchanged. */
  predicate Storable(k: Key)
  {
    |k| < Two31 && (k == [] || (k[|k| - 1] != Space && k[|k| - 1] != Nul))
  }

  predicate AllStorable(es: seq<Entry>)
  {
    forall i :: 0 <= i < |es| ==> Storable(es[i].key)
  }

  /** A key that does not end in a space or NUL, so that `unpack('A')` gives it back whole. */
  predicate Unpadded(k: Key)
  {
    k == [] || (k[|k| - 1] != Space && k[|k| - 1] != Nul)
  }

  /**
   * Decode the entry starting at `pos`: the key (with `unpack 'A'`), the
   * value and the value's offset.  A negative length or an entry running
   * past the buffer is Malformed.
   */
  function ScanEntry(buf: seq<Byte>, pos: nat): (r: Result<Item, DictError>)
    ensures r.Success? ==> pos + 4 <= r.value.pos && r.value.pos + 8 <= |buf|
  {
    if pos + 4 > |buf| then Failure(Malformed)
    else
      var len := UnpackInt32(buf[pos..pos + 4]);
      if len < 0 then Failure(Malformed)
      else
        var vpos := pos + 4 + len + Pad(len);
        if vpos + 8 > |buf| then Failure(Malformed)
        else Success(Item(StripTrailing(buf[pos + 4..pos + 4 + len]), buf[vpos..vpos + 8], vpos))
  }

  function Prepend(done: seq<Item>, r: Result<seq<Item>, DictError>): Result<seq<Item>, DictError>
  {
    match r
    case Failure(e) => Failure(e)
    case Success(rest) => Success(done + rest)
  }

  lemma PrependNone(r: Result<seq<Item>, DictError>)
    ensures Prepend([], r) == r
    ensures r.Success? ==> Prepend(r.value, Success([])) == r
  {
    if r.Success? {
      assert [] + r.value == r.value && r.value + [] == r.value;
    }
  }

  /** A scan stops with Malformed when the entry at `pos` cannot be decoded. */
  lemma ReadFromStops(buf: seq<Byte>, pos: nat, used: nat)
    requires pos < used && ScanEntry(buf, pos).Failure?
    ensures ReadFrom(buf, pos, used) == Failure(Malformed)
  {
    assert ReadFrom(buf, pos, used) == ReadEntryAt(buf, pos, used);
  }

  /** A scan that decodes the entry at `pos` goes on right after its value. */
  lemma ReadFromStep(buf: seq<Byte>, pos: nat, used: nat, item: Item, done: seq<Item>)
    requires pos < used && ScanEntry(buf, pos) == Success(item)
    ensures Prepend(done, ReadFrom(buf, pos, used)) == Prepend(done + [item], ReadFrom(buf, item.pos + 8, used))
  {
    assert ReadFrom(buf, pos, used) == ReadEntryAt(buf, pos, used);
    assert ReadFrom(buf, pos, used) == Prepend([item], ReadFrom(buf, item.pos + 8, used));
    PrependAppend(done, item, ReadFrom(buf, item.pos + 8, used));
  }

  /** The scan from `pos` is the entry there followed by the scan after it. */
  lemma ReadFromCons(buf: seq<Byte>, pos: nat, used: nat, item: Item, next: nat, rest: seq<Item>)
    requires pos < used && ScanEntry(buf, pos) == Success(item) && next == item.pos + 8
    requires ReadFrom(buf, next, used) == Success(rest)
    ensures ReadFrom(buf, pos, used) == Success([item] + rest)
  {
    assert ReadFrom(buf, pos, used) == ReadEntryAt(buf, pos, used);
  }

  lemma PrependAppend(done: seq<Item>, item: Item, r: Result<seq<Item>, DictError>)
    ensures Prepend(done, Prepend([item], r)) == Prepend(done + [item], r)
  {
    if r.Success? {
      assert done + ([item] + r.value) == (done + [item]) + r.value;
    }
  }

  /** `read_all_values` from `pos`: decode entries while `pos < used`. */
  function ReadFrom(buf: seq<Byte>, pos: nat, used: nat): Result<seq<Item>, DictError>
    decreases used - pos, 1
  {
    if pos >= used then Success([]) else ReadEntryAt(buf, pos, used)
  }

  /** One step of `read_all_values`: the entry at `pos`, then the scan after its value. */
  function ReadEntryAt(buf: seq<Byte>, pos: nat, used: nat): Result<seq<Item>, DictError>
    requires pos < used
    decreases used - pos, 0
  {
    match ScanEntry(buf, pos)
    case Failure(e) => Failure(e)
    case Success(item) => Prepend([item], ReadFrom(buf, item.pos + 8, used))
  }

  /** A file extended to the initial size when it is empty, as `truncate` does. */
  function OpenBuffer(file: seq<Byte>): (buf: seq<Byte>)
    ensures |file| == 0 ==> |buf| == InitialMmapSize && forall i :: 0 <= i < |buf| ==> buf[i] == 0
    ensures |file| > 0 ==> buf == file
  {
    if |file| == 0 then seq(InitialMmapSize, _ => 0) else file
  }

  /**
   * What opening `file` finds.  A zero `used` is a blank file, which starts
   * at `used = 8` with no entries; any other `used` is scanned.  A file the
   * dictionary could not have written is Malformed.
   */
  function Decoded(file: seq<Byte>): Result<Image, DictError>
  {
    var buf := OpenBuffer(file);
    if |buf| < HeaderSize then Failure(Malformed)
    else
      var used := UnpackInt32(buf[0..4]);
      if used == 0 then Success(Image(HeaderSize, []))
      else if used < HeaderSize || used > |buf| then Failure(Malformed)
      else
        match ReadFrom(buf, HeaderSize, used)
        case Failure(e) => Failure(e)
        case Success(items) =>
          var es := EntriesOf(items);
          if buf[HeaderSize..used] == Encode(es) && DistinctKeys(es) then Success(Image(used, es))
          else Failure(Malformed)
  }

  // ---------------------------------------------------------------------------
  // Lemmas about the layout

  lemma {:induction false} EncodeLength(es: seq<Entry>)
    ensures |Encode(es)| == Size(KeySeq(es))
  {
    if es != [] {
      EncodeLength(es[1..]);
      assert KeySeq(es)[1..] == KeySeq(es[1..]);
    }
  }

  lemma {:induction false} EncodeAppend(es: seq<Entry>, e: Entry)
    ensures Encode(es + [e]) == Encode(es) + EncodeEntry(e)
  {
    if es == [] {
      assert [e][1..] == [];
    } else {
      assert (es + [e])[1..] == es[1..] + [e];
      EncodeAppend(es[1..], e);
    }
  }

  lemma {:induction false} SizeAppend(keys: seq<Key>, k: Key)
    ensures Size(keys + [k]) == Size(keys) + EntrySize(|k|)
  {
    if keys != [] {
      assert (keys + [k])[1..] == keys[1..] + [k];
      SizeAppend(keys[1..], k);
    }
  }

  /** Every value starts on an 8-byte boundary, and its slot ends inside the region. */
  lemma {:induction false} SlotOffsetAligned(keys: seq<Key>, j: nat)
    requires j < |keys|
    ensures SlotOffset(keys, j) % 8 == 0
    ensures SlotOffset(keys, j) + 8 <= Size(keys)
  {
    EntryAlignment(|keys[0]|);
    if j > 0 {
      SlotOffsetAligned(keys[1..], j - 1);
      AlignedSum(EntrySize(|keys[0]|), SlotOffset(keys[1..], j - 1));
    }
  }

  lemma AlignedSum(a: nat, b: nat)
    requires a % 8 == 0 && b % 8 == 0
    ensures (a + b) % 8 == 0
  {
  }

  lemma SliceOfSlice(buf: seq<Byte>, pos: nat, part: seq<Byte>, a: nat, b: nat)
    requires pos + |part| <= |buf| && buf[pos..pos + |part|] == part
    requires a <= b <= |part|
    ensures buf[pos + a..pos + b] == part[a..b]
  {
    var w := buf[pos..pos + |part|];
    forall i | 0 <= i < b - a ensures w[a..b][i] == buf[pos + a..pos + b][i] {
      assert w[a + i] == buf[pos + a + i];
    }
  }

  /** The bytes of an entry before its value: length field, key and padding. */
  function EntryHead(k: Key): (r: seq<Byte>)
    ensures |r| == 4 + |k| + Pad(|k|)
  {
    PackInt32(|k|) + k + Spaces(Pad(|k|))
  }

  lemma EncodeEntrySplit(e: Entry)
    ensures EncodeEntry(e) == EntryHead(e.key) + e.value
  {
  }

  lemma EncodeCons(es: seq<Entry>)
    requires es != []
    ensures Encode(es) == EncodeEntry(es[0]) + Encode(es[1..])
    ensures KeySeq(es)[1..] == KeySeq(es[1..])
  {
  }

  /** Splicing `v` over the middle part `x` of `p + x + r`. */
  lemma SpliceMiddle(p: seq<Byte>, x: seq<Byte>, r: seq<Byte>, v: seq<Byte>)
    requires |x| == |v|
    ensures (p + x + r)[|p|..|p| + |x|] == x
    ensures p + v + r == (p + x + r)[..|p|] + v + (p + x + r)[|p| + |x|..]
  {
    var w := p + x + r;
    assert w[..|p|] == p;
    assert w[|p| + |x|..] == r;
  }

  /** Splicing inside the tail `t` of `h + t`. */
  lemma SpliceTail(h: seq<Byte>, t: seq<Byte>, o: nat, v: seq<Byte>)
    requires o + |v| <= |t|
    ensures (h + t)[|h| + o..|h| + o + |v|] == t[o..o + |v|]
    ensures h + (t[..o] + v + t[o + |v|..]) == (h + t)[..|h| + o] + v + (h + t)[|h| + o + |v|..]
  {
    var w := h + t;
    assert w[..|h| + o] == h + t[..o];
    assert w[|h| + o + |v|..] == t[o + |v|..];
    assert w[|h| + o..|h| + o + |v|] == t[o..o + |v|];
  }

  /** The value of the `j`-th entry sits at its slot offset in the encoding. */
  lemma {:induction false} SlotHoldsValue(es: seq<Entry>, j: nat)
    requires j < |es|
    ensures SlotOffset(KeySeq(es), j) + 8 <= |Encode(es)|
    ensures Encode(es)[SlotOffset(KeySeq(es), j)..SlotOffset(KeySeq(es), j) + 8] == es[j].value
  {
    EncodeCons(es);
    EncodeEntrySplit(es[0]);
    var rest := Encode(es[1..]);
    if j == 0 {
      SpliceMiddle(EntryHead(es[0].key), es[0].value, rest, es[0].value);
    } else {
      SlotHoldsValue(es[1..], j - 1);
      var o := SlotOffset(KeySeq(es[1..]), j - 1);
      SpliceTail(EncodeEntry(es[0]), rest, o, es[j].value);
    }
  }

  /** Overwriting the `j`-th value changes exactly the 8 bytes of its slot. */
  lemma {:induction false} EncodeUpdateSlot(es: seq<Entry>, j: nat, v: Blob)
    requires j < |es|
    ensures SlotOffset(KeySeq(es), j) + 8 <= |Encode(es)|
    ensures Encode(es[j := Entry(es[j].key, v)])
         == Encode(es)[..SlotOffset(KeySeq(es), j)] + v + Encode(es)[SlotOffset(KeySeq(es), j) + 8..]
  {
    SlotHoldsValue(es, j);
    if j == 0 {
      UpdateFirstSlot(es, v);
    } else {
      EncodeUpdateSlot(es[1..], j - 1, v);
      UpdateLaterSlot(es, j, v);
    }
  }

  lemma UpdateFirstSlot(es: seq<Entry>, v: Blob)
    requires es != []
    ensures Encode(es[0 := Entry(es[0].key, v)])
         == Encode(es)[..SlotOffset(KeySeq(es), 0)] + v + Encode(es)[SlotOffset(KeySeq(es), 0) + 8..]
  {
    var es' := es[0 := Entry(es[0].key, v)];
    EncodeCons(es);
    EncodeCons(es');
    assert es'[1..] == es[1..];
    EncodeEntrySplit(es[0]);
    EncodeEntrySplit(es'[0]);
    SpliceMiddle(EntryHead(es[0].key), es[0].value, Encode(es[1..]), v);
  }

  lemma UpdateLaterSlot(es: seq<Entry>, j: nat, v: Blob)
    requires 0 < j < |es| && SlotOffset(KeySeq(es), j) + 8 <= |Encode(es)|
    requires SlotOffset(KeySeq(es[1..]), j - 1) + 8 <= |Encode(es[1..])|
    requires Encode(es[1..][j - 1 := Entry(es[j].key, v)])
          == Encode(es[1..])[..SlotOffset(KeySeq(es[1..]), j - 1)] + v + Encode(es[1..])[SlotOffset(KeySeq(es[1..]), j - 1) + 8..]
    ensures Encode(es[j := Entry(es[j].key, v)])
         == Encode(es)[..SlotOffset(KeySeq(es), j)] + v + Encode(es)[SlotOffset(KeySeq(es), j) + 8..]
  {
    var es' := es[j := Entry(es[j].key, v)];
    EncodeCons(es);
    EncodeCons(es');
    assert es'[1..] == es[1..][j - 1 := Entry(es[j].key, v)];
    SpliceTail(EncodeEntry(es[0]), Encode(es[1..]), SlotOffset(KeySeq(es[1..]), j - 1), v);
  }

  /** A storable key comes back from `unpack 'A'` unchanged. */
  lemma StripStorable(k: Key)
    requires Storable(k)
    ensures StripTrailing(k) == k
  {
  }

  /** The length field, the key and the value of an entry encoded at `pos`. */
  lemma EntryParts(buf: seq<Byte>, pos: nat, e: Entry)
    requires pos + EntrySize(|e.key|) <= |buf|
    requires buf[pos..pos + EntrySize(|e.key|)] == EncodeEntry(e)
    ensures buf[pos..pos + 4] == PackInt32(|e.key|)
    ensures buf[pos + 4..pos + 4 + |e.key|] == e.key
    ensures buf[pos + 4 + |e.key| + Pad(|e.key|)..pos + EntrySize(|e.key|)] == e.value
  {
    var k := e.key;
    var E := EncodeEntry(e);
    var size := EntrySize(|k|);
    var o := 4 + |k| + Pad(|k|);
    assert E == PackInt32(|k|) + k + Spaces(Pad(|k|)) + e.value;
    assert E[0..4] == PackInt32(|k|);
    assert E[4..4 + |k|] == k;
    assert E[o..size] == e.value;
    SliceOfSlice(buf, pos, E, 0, 4);
    SliceOfSlice(buf, pos, E, 4, 4 + |k|);
    SliceOfSlice(buf, pos, E, o, size);
  }

  /** An entry whose length field reads `len` and that fits the buffer decodes. */
  lemma ScanEntrySuccess(buf: seq<Byte>, pos: nat, len: nat)
    requires pos + 4 + len + Pad(len) + 8 <= |buf| && UnpackInt32(buf[pos..pos + 4]) == len
    ensures ScanEntry(buf, pos)
         == Success(Item(StripTrailing(buf[pos + 4..pos + 4 + len]),
                         buf[pos + 4 + len + Pad(len)..pos + 4 + len + Pad(len) + 8],
                         pos + 4 + len + Pad(len)))
  {
  }

  /** One encoded entry at `pos` scans as its key, its value and its value offset. */
  lemma ReadEntry(buf: seq<Byte>, pos: nat, e: Entry)
    requires pos + EntrySize(|e.key|) <= |buf|
    requires buf[pos..pos + EntrySize(|e.key|)] == EncodeEntry(e)
    requires Storable(e.key)
    ensures ScanEntry(buf, pos) == Success(Item(e.key, e.value, pos + 4 + |e.key| + Pad(|e.key|)))
  {
    var k := e.key;
    EntryParts(buf, pos, e);
    Int32RoundTrip(|k|);
    StripStorable(k);
    ScanEntrySuccess(buf, pos, |k|);
  }

  /** The `j`-th scanned item is the `j`-th entry with the offset of its value. */
  lemma {:induction false} ItemsAt(es: seq<Entry>, base: nat, j: nat)
    requires j < |es|
    ensures Items(es, base)[j] == Item(es[j].key, es[j].value, base + SlotOffset(KeySeq(es), j))
  {
    assert KeySeq(es)[1..] == KeySeq(es[1..]);
    if j > 0 {
      ItemsAt(es[1..], base + EntrySize(|es[0].key|), j - 1);
    }
  }

  /** The scan from an encoded entry is that entry followed by the scan after it. */
  lemma ReadEntryCons(buf: seq<Byte>, pos: nat, used: nat, e: Entry, rest: seq<Item>)
    requires pos + EntrySize(|e.key|) <= |buf| && buf[pos..pos + EntrySize(|e.key|)] == EncodeEntry(e)
    requires Storable(e.key) && pos < used
    requires ReadFrom(buf, pos + EntrySize(|e.key|), used) == Success(rest)
    ensures ReadFrom(buf, pos, used) == Success([Item(e.key, e.value, pos + 4 + |e.key| + Pad(|e.key|))] + rest)
  {
    var vpos := pos + 4 + |e.key| + Pad(|e.key|);
    ReadEntry(buf, pos, e);
    ReadFromCons(buf, pos, used, Item(e.key, e.value, vpos), pos + EntrySize(|e.key|), rest);
  }

  /** An encoded region is its first entry followed by the region of the rest. */
  lemma EncodedHead(buf: seq<Byte>, pos: nat, es: seq<Entry>)
    requires es != []
    requires pos + |Encode(es)| <= |buf| && buf[pos..pos + |Encode(es)|] == Encode(es)
    ensures |Encode(es)| == EntrySize(|es[0].key|) + |Encode(es[1..])|
    ensures buf[pos..pos + EntrySize(|es[0].key|)] == EncodeEntry(es[0])
    ensures buf[pos + EntrySize(|es[0].key|)..pos + |Encode(es)|] == Encode(es[1..])
  {
    var E := Encode(es);
    var size := EntrySize(|es[0].key|);
    assert E == EncodeEntry(es[0]) + Encode(es[1..]);
    SliceOfSlice(buf, pos, E, 0, size);
    SliceOfSlice(buf, pos, E, size, |E|);
    assert E[..size] == EncodeEntry(es[0]);
    assert E[size..] == Encode(es[1..]);
  }

  /** The entries `es` are encoded one after another from `pos` on. */
  predicate EncodedAt(buf: seq<Byte>, pos: nat, es: seq<Entry>)
    decreases es
  {
    es == [] ||
    (pos + EntrySize(|es[0].key|) <= |buf| && buf[pos..pos + EntrySize(|es[0].key|)] == EncodeEntry(es[0])
     && EncodedAt(buf, pos + EntrySize(|es[0].key|), es[1..]))
  }

  /** A region holding `Encode(es)` has the entries laid out one after another. */
  lemma {:induction false} RegionEncodedAt(buf: seq<Byte>, pos: nat, es: seq<Entry>)
    requires pos + |Encode(es)| <= |buf| && buf[pos..pos + |Encode(es)|] == Encode(es)
    ensures EncodedAt(buf, pos, es)
    decreases es
  {
    if es != [] {
      EncodedHead(buf, pos, es);
      RegionEncodedAt(buf, pos + EntrySize(|es[0].key|), es[1..]);
    }
  }

  lemma ItemsHead(es: seq<Entry>, pos: nat)
    requires es != []
    ensures Items(es, pos)
         == [Item(es[0].key, es[0].value, pos + EntrySize(|es[0].key|) - 8)] + Items(es[1..], pos + EntrySize(|es[0].key|))
  {
  }

  lemma SizeHead(es: seq<Entry>)
    requires es != []
    ensures Size(KeySeq(es)) == EntrySize(|es[0].key|) + Size(KeySeq(es[1..]))
  {
    assert KeySeq(es)[1..] == KeySeq(es[1..]);
  }

  /** Scanning entries laid out from `pos` up to their end yields exactly them with their value offsets. */
  lemma {:induction false} ReadEncoded(buf: seq<Byte>, pos: nat, es: seq<Entry>, used: nat)
    requires EncodedAt(buf, pos, es) && AllStorable(es) && used == pos + Size(KeySeq(es))
    ensures ReadFrom(buf, pos, used) == Success(Items(es, pos))
    decreases es
  {
    if es != [] {
      var next := pos + EntrySize(|es[0].key|);
      SizeHead(es);
      assert AllStorable(es[1..]);
      ReadEncoded(buf, next, es[1..], used);
      ReadEntryCons(buf, pos, used, es[0], Items(es[1..], next));
      ItemsHead(es, pos);
    }
  }

  lemma EntriesOfItems(es: seq<Entry>, base: nat)
    ensures EntriesOf(Items(es, base)) == es
  {
    forall j | 0 <= j < |es| ensures EntriesOf(Items(es, base))[j] == es[j] {
      ItemsAt(es, base, j);
    }
  }

  function ItemKeys(items: seq<Item>): set<Key>
  {
    set i | 0 <= i < |items| :: items[i].key
  }

  lemma ItemKeysLast(items: seq<Item>)
    requires items != []
    ensures ItemKeys(items) == ItemKeys(items[..|items| - 1]) + {items[|items| - 1].key}
  {
    var n := |items| - 1;
    forall k | k in ItemKeys(items) ensures k in ItemKeys(items[..n]) + {items[n].key} {
      var i :| 0 <= i < |items| && items[i].key == k;
      if i < n {
        assert items[..n][i].key == k;
      }
    }
    forall k | k in ItemKeys(items[..n]) ensures k in ItemKeys(items) {
      var i :| 0 <= i < n && items[..n][i].key == k;
      assert items[i].key == k;
    }
  }

  /** With distinct keys, the index maps each scanned key to its own offset. */
  lemma {:induction false} IndexOfDistinct(items: seq<Item>)
    requires forall i, j :: 0 <= i < j < |items| ==> items[i].key != items[j].key
    ensures IndexOf(items).Keys == ItemKeys(items)
    ensures forall j :: 0 <= j < |items| ==> IndexOf(items)[items[j].key] == items[j].pos
  {
    if items != [] {
      var n := |items| - 1;
      var init := items[..n];
      IndexOfDistinct(init);
      ItemKeysLast(items);
      var last := items[n];
      assert IndexOf(items) == IndexOf(init)[last.key := last.pos];
      forall j | 0 <= j < n ensures IndexOf(items)[items[j].key] == items[j].pos {
        assert init[j] == items[j];
        assert items[j].key != last.key;
      }
    }
  }

  /** The index entry for the `j`-th key is the offset of its value. */
  lemma IndexOfAt(es: seq<Entry>, base: nat, j: nat)
    requires DistinctKeys(es) && j < |es|
    ensures es[j].key in IndexOf(Items(es, base)) && IndexOf(Items(es, base))[es[j].key] == base + SlotOffset(KeySeq(es), j)
  {
    IndexOfItems(es, base);
  }

  lemma IndexOfItems(es: seq<Entry>, base: nat)
    requires DistinctKeys(es)
    ensures IndexOf(Items(es, base)).Keys == KeySet(es)
    ensures forall j :: 0 <= j < |es| ==> IndexOf(Items(es, base))[es[j].key] == base + SlotOffset(KeySeq(es), j)
  {
    var items := Items(es, base);
    ItemsSlots(es, base);
    ItemKeysOf(items, es);
    IndexOfDistinct(items);
  }

  /** The keys and value offsets a scan of an encoded region reports. */
  lemma ItemsSlots(es: seq<Entry>, base: nat)
    ensures forall i :: 0 <= i < |es| ==> Items(es, base)[i].key == es[i].key && Items(es, base)[i].pos == base + SlotOffset(KeySeq(es), i)
  {
    forall i | 0 <= i < |es| ensures Items(es, base)[i].key == es[i].key && Items(es, base)[i].pos == base + SlotOffset(KeySeq(es), i) {
      ItemsAt(es, base, i);
    }
  }

  /** Items with the entries' keys, in order, have the same key set and are as distinct. */
  lemma ItemKeysOf(items: seq<Item>, es: seq<Entry>)
    requires |items| == |es| && forall i :: 0 <= i < |es| ==> items[i].key == es[i].key
    ensures ItemKeys(items) == KeySet(es)
    ensures DistinctKeys(es) ==> forall i, j :: 0 <= i < j < |items| ==> items[i].key != items[j].key
  {
    forall k | k in KeySet(es) ensures k in ItemKeys(items) {
      var i :| 0 <= i < |es| && es[i].key == k;
      assert items[i].key == k;
    }
    forall k | k in ItemKeys(items) ensures k in KeySet(es) {
      var i :| 0 <= i < |items| && items[i].key == k;
      assert es[i].key == k;
    }
  }

  lemma KeySetLast(es: seq<Entry>)
    requires es != []
    ensures KeySet(es) == KeySet(es[..|es| - 1]) + {es[|es| - 1].key}
  {
    var n := |es| - 1;
    forall k | k in KeySet(es) ensures k in KeySet(es[..n]) + {es[n].key} {
      var i :| 0 <= i < |es| && es[i].key == k;
      if i < n {
        assert es[..n][i].key == k;
      }
    }
    forall k | k in KeySet(es[..n]) ensures k in KeySet(es) {
      var i :| 0 <= i < n && es[..n][i].key == k;
      assert es[i].key == k;
    }
  }

  lemma {:induction false} ToMapKeys(es: seq<Entry>)
    ensures ToMap(es).Keys == KeySet(es)
  {
    if es != [] {
      ToMapKeys(es[..|es| - 1]);
      KeySetLast(es);
    }
  }

  /** With distinct keys, each entry's key maps to that entry's value. */
  lemma {:induction false} ToMapAt(es: seq<Entry>, j: nat)
    requires DistinctKeys(es) && j < |es|
    ensures es[j].key in ToMap(es) && ToMap(es)[es[j].key] == es[j].value
  {
    var n := |es| - 1;
    if j < n {
      var init := es[..n];
      assert DistinctKeys(init);
      ToMapAt(init, j);
      assert init[j] == es[j];
      assert es[j].key != es[n].key;
    }
  }

  lemma ToMapFacts(es: seq<Entry>)
    requires DistinctKeys(es)
    ensures ToMap(es).Keys == KeySet(es)
    ensures forall j :: 0 <= j < |es| ==> ToMap(es)[es[j].key] == es[j].value
  {
    ToMapKeys(es);
    forall j | 0 <= j < |es| ensures ToMap(es)[es[j].key] == es[j].value {
      ToMapAt(es, j);
    }
  }

  /** Contents after appending a new entry. */
  lemma ToMapAppend(es: seq<Entry>, e: Entry)
    ensures ToMap(es + [e]) == ToMap(es)[e.key := e.value]
    ensures KeySeq(es + [e]) == KeySeq(es) + [e.key]
  {
    assert (es + [e])[..|es|] == es;
  }

  /** Overwriting a value keeps the keys, so it keeps them distinct. */
  lemma DistinctUpdate(es: seq<Entry>, j: nat, v: Blob)
    requires DistinctKeys(es) && j < |es|
    ensures DistinctKeys(es[j := Entry(es[j].key, v)])
  {
    var es' := es[j := Entry(es[j].key, v)];
    forall a, b | 0 <= a < b < |es'| ensures es'[a].key != es'[b].key {
      assert es'[a].key == es[a].key && es'[b].key == es[b].key;
    }
  }

  /** Contents after overwriting one value: only that key changes. */
  lemma {:induction false} ToMapUpdate(es: seq<Entry>, j: nat, v: Blob)
    requires DistinctKeys(es) && j < |es|
    ensures DistinctKeys(es[j := Entry(es[j].key, v)])
    ensures ToMap(es[j := Entry(es[j].key, v)]) == ToMap(es)[es[j].key := v]
  {
    DistinctUpdate(es, j, v);
    var n := |es| - 1;
    if j == n {
      assert es[j := Entry(es[j].key, v)][..n] == es[..n];
    } else {
      var init := es[..n];
      assert DistinctKeys(init);
      ToMapUpdate(init, j, v);
      ToMapUpdateEarlier(es, j, v);
    }
  }

  /** The step of `ToMapUpdate` for an entry before the last one. */
  lemma ToMapUpdateEarlier(es: seq<Entry>, j: nat, v: Blob)
    requires DistinctKeys(es) && j < |es| - 1
    requires ToMap(es[..|es| - 1][j := Entry(es[j].key, v)]) == ToMap(es[..|es| - 1])[es[j].key := v]
    ensures ToMap(es[j := Entry(es[j].key, v)]) == ToMap(es)[es[j].key := v]
  {
    var es' := es[j := Entry(es[j].key, v)];
    var n := |es| - 1;
    var init := es[..n];
    var k := es[j].key;
    var last := es[n];
    assert es'[..n] == init[j := Entry(k, v)];
    assert es'[n] == last;
    assert k != last.key;
    assert ToMap(init)[k := v][last.key := last.value] == ToMap(init)[last.key := last.value][k := v];
  }

  /** The position and the value a scan reports agree for every entry. */
  lemma ScanAgreesWithIndex(es: seq<Entry>, base: nat, j: nat)
    requires DistinctKeys(es) && j < |es|
    ensures Items(es, base)[j].key == es[j].key
    ensures es[j].key in IndexOf(Items(es, base)) && Items(es, base)[j].pos == IndexOf(Items(es, base))[es[j].key]
    ensures es[j].key in ToMap(es) && Items(es, base)[j].value == ToMap(es)[es[j].key]
  {
    ItemsAt(es, base, j);
    IndexOfItems(es, base);
    ToMapFacts(es);
  }

  // ---------------------------------------------------------------------------
  // The buffer primitive

  /** `m[at..] = bytes`: overwrite bytes in place. */
  method WriteBytes(a: array<Byte>, at: nat, bytes: seq<Byte>)
    requires at + |bytes| <= a.Length
    modifies a
    ensures a[..] == old(a[..])[..at] + bytes + old(a[..])[at + |bytes|..]
  {
    var i := 0;
    while i < |bytes|
      invariant 0 <= i <= |bytes|
      invariant forall k :: 0 <= k < a.Length ==> a[k] == if at <= k < at + i then bytes[k - at] else old(a[k])
    {
      a[at + i] := bytes[i];
      i := i + 1;
    }
    assert a[..] == old(a[..])[..at] + bytes + old(a[..])[at + |bytes|..];
  }

  /** The `while pos < used` loop of `read_all_values`, over the mapped bytes. */
  method ScanEntries(buf: seq<Byte>, used: nat) returns (r: Result<seq<Item>, DictError>)
    ensures r == ReadFrom(buf, HeaderSize, used)
  {
    ghost var all := ReadFrom(buf, HeaderSize, used);
    var pos := HeaderSize;
    var values: seq<Item> := [];
    PrependNone(all);
    while pos < used
      invariant Prepend(values, ReadFrom(buf, pos, used)) == all
      decreases used - pos
    {
      if pos + 4 > |buf| {
        ReadFromStops(buf, pos, used);
        return Failure(Malformed);
      }
      var encodedLen := UnpackInt32(buf[pos..pos + 4]);
      if encodedLen < 0 {
        ReadFromStops(buf, pos, used);
        return Failure(Malformed);
      }
      var paddedLen := encodedLen + Pad(encodedLen);
      if pos + 4 + paddedLen + 8 > |buf| {
        ReadFromStops(buf, pos, used);
        return Failure(Malformed);
      }
      var encoded := StripTrailing(buf[pos + 4..pos + 4 + encodedLen]);
      var vpos := pos + 4 + paddedLen;
      var value := buf[vpos..vpos + 8];
      assert ScanEntry(buf, pos) == Success(Item(encoded, value, vpos));
      ReadFromStep(buf, pos, used, Item(encoded, value, vpos), values);
      values := values + [Item(encoded, value, vpos)];
      pos := vpos + 8;
    }
    PrependNone(Success(values));
    r := Success(values);
  }

  /** A fresh array holding `s`: the bytes of the mapped file. */
  method FromSeq(s: seq<Byte>) returns (a: array<Byte>)
    ensures fresh(a) && a[..] == s
  {
    a := new Byte[|s|](i requires 0 <= i < |s| => s[i]);
    assert a[..] == s;
  }

  /** The loop that fills `@positions` from the scanned triples. */
  method BuildIndex(items: seq<Item>) returns (index: map<Key, nat>)
    ensures index == IndexOf(items)
  {
    index := map[];
    var i := 0;
    while i < |items|
      invariant 0 <= i <= |items|
      invariant index == IndexOf(items[..i])
    {
      assert items[..i + 1][..i] == items[..i];
      index := index[items[i].key := items[i].pos];
      i := i + 1;
    }
    assert items[..|items|] == items;
  }

  /** A scan that re-encodes to the region is its entries, and the index it builds is theirs. */
  lemma OpenedIndex(buf: seq<Byte>, used: nat, es: seq<Entry>)
    requires HeaderSize <= used <= |buf|
    requires ReadFrom(buf, HeaderSize, used).Success? && es == EntriesOf(ReadFrom(buf, HeaderSize, used).value)
    requires buf[HeaderSize..used] == Encode(es) && DistinctKeys(es)
    ensures ReadFrom(buf, HeaderSize, used) == Success(Items(es, HeaderSize))
  {
    ScannedKeysStorable(buf, HeaderSize, used);
    StorableEntries(ReadFrom(buf, HeaderSize, used).value, es);
    RegionLayout(buf, HeaderSize, used, es);
    ReadEncoded(buf, HeaderSize, es, used);
  }

  /** A file accepted by `Open` already has the layout of the dictionary it decodes to. */
  lemma OpenedLayout(buf: seq<Byte>, used: nat, items: seq<Item>, es: seq<Entry>)
    requires |buf| >= HeaderSize && UnpackInt32(buf[0..4]) == used && HeaderSize <= used <= |buf|
    requires ReadFrom(buf, HeaderSize, used) == Success(items) && es == EntriesOf(items)
    requires buf[HeaderSize..used] == Encode(es) && DistinctKeys(es)
    ensures Layout(buf, used, IndexOf(items), es)
    ensures buf == buf[..0] + PackInt32(used) + buf[4..]
  {
    OpenedIndex(buf, used, es);
    HeaderRewrite(buf, used);
  }

  /** Writing back the `used` a header holds leaves the buffer unchanged. */
  lemma HeaderRewrite(buf: seq<Byte>, used: nat)
    requires |buf| >= 4 && UnpackInt32(buf[0..4]) == used
    ensures buf[0..4] == PackInt32(used)
    ensures buf == buf[..0] + PackInt32(used) + buf[4..]
  {
    Int32Rewrite(buf[0..4]);
  }

  /** Bytes `pos` to `used` holding the encoding of `es` lay the entries out up to `used`. */
  lemma RegionLayout(buf: seq<Byte>, pos: nat, used: nat, es: seq<Entry>)
    requires pos <= used <= |buf| && buf[pos..used] == Encode(es)
    ensures EncodedAt(buf, pos, es) && used == pos + Size(KeySeq(es))
  {
    EncodeLength(es);
    RegionEncodedAt(buf, pos, es);
  }

  lemma StorableEntries(items: seq<Item>, es: seq<Entry>)
    requires es == EntriesOf(items)
    requires forall i :: 0 <= i < |items| ==> Storable(items[i].key)
    ensures AllStorable(es)
  {
  }

  function Zeros(n: nat): (r: seq<Byte>)
    ensures |r| == n && forall i :: 0 <= i < n ==> r[i] == 0
  {
    seq(n, _ => 0)
  }

  lemma ZerosAdd(a: nat, b: nat)
    ensures Zeros(a) + Zeros(b) == Zeros(a + b)
  {
  }

  // ---------------------------------------------------------------------------
  // The layout a mapping keeps

  /**
   * A well-formed mapping: the header holds `used`, bytes 8 to `used` are
   * the entries, and the index is the one a scan of them builds.
   */
  ghost predicate Layout(buf: seq<Byte>, used: nat, positions: map<Key, nat>, es: seq<Entry>)
  {
    && HeaderSize <= used <= |buf|
    && buf[0..4] == PackInt32(used)
    && buf[HeaderSize..used] == Encode(es)
    && DistinctKeys(es)
    && positions == IndexOf(Items(es, HeaderSize))
  }

  /** The layout of a blank mapping after `used` is set to 8. */
  lemma BlankLayout(buf: seq<Byte>)
    requires |buf| >= HeaderSize && buf[0..4] == PackInt32(HeaderSize)
    ensures Layout(buf, HeaderSize, map[], [])
  {
    assert buf[HeaderSize..HeaderSize] == [];
  }

  /** Growing the mapping with zeros keeps its layout. */
  lemma ExtendedLayout(buf: seq<Byte>, used: nat, positions: map<Key, nat>, es: seq<Entry>, n: nat)
    requires Layout(buf, used, positions, es)
    ensures Layout(buf + Zeros(n), used, positions, es)
  {
    var buf' := buf + Zeros(n);
    assert buf'[0..4] == buf[0..4];
    assert buf'[HeaderSize..used] == buf[HeaderSize..used];
  }

  /** An indexed key is the key of some entry, and its offset is that entry's slot. */
  lemma IndexedKey(buf: seq<Byte>, used: nat, positions: map<Key, nat>, es: seq<Entry>, key: Key)
    requires Layout(buf, used, positions, es)
    ensures key in positions <==> key in KeySet(es)
    ensures key in positions ==> exists j :: 0 <= j < |es| && es[j].key == key
  {
    IndexOfItems(es, HeaderSize);
  }

  /** The two writes of `init_value`: the entry after `used`, then the new `used` into the header. */
  lemma AppendedBytes(buf0: seq<Byte>, used0: nat, value: seq<Byte>, buf1: seq<Byte>, buf2: seq<Byte>)
    requires HeaderSize <= used0 && used0 + |value| <= |buf0|
    requires buf1 == buf0[..used0] + value + buf0[used0 + |value|..]
    requires buf2 == buf1[..0] + PackInt32(used0 + |value|) + buf1[4..]
    ensures |buf2| == |buf0|
    ensures buf2[0..4] == PackInt32(used0 + |value|)
    ensures buf2[HeaderSize..used0 + |value|] == buf0[HeaderSize..used0] + value
  {
    assert buf2[HeaderSize..used0 + |value|] == buf1[HeaderSize..used0 + |value|];
    assert buf1[HeaderSize..used0 + |value|] == buf0[HeaderSize..used0] + value;
  }

  lemma {:induction false} ItemsAppend(es: seq<Entry>, e: Entry, base: nat)
    ensures Items(es + [e], base) == Items(es, base) + [Item(e.key, e.value, base + Size(KeySeq(es)) + EntrySize(|e.key|) - 8)]
    decreases es
  {
    if es == [] {
      assert [e][1..] == [];
    } else {
      var next := base + EntrySize(|es[0].key|);
      assert (es + [e])[0] == es[0];
      assert (es + [e])[1..] == es[1..] + [e];
      ItemsAppend(es[1..], e, next);
      SizeHead(es);
      ItemsHead(es, base);
      ItemsHead(es + [e], base);
    }
  }

  lemma IndexOfAppend(items: seq<Item>, item: Item)
    ensures IndexOf(items + [item]) == IndexOf(items)[item.key := item.pos]
  {
    assert (items + [item])[..|items|] == items;
  }

  /** The index after `init_value` records the new key at the new slot. */
  lemma AppendedIndex(es: seq<Entry>, e: Entry, used1: nat)
    requires used1 == HeaderSize + |Encode(es)| + EntrySize(|e.key|)
    ensures IndexOf(Items(es + [e], HeaderSize)) == IndexOf(Items(es, HeaderSize))[e.key := used1 - 8]
  {
    EncodeLength(es);
    ItemsAppend(es, e, HeaderSize);
    IndexOfAppend(Items(es, HeaderSize), Item(e.key, e.value, used1 - 8));
  }

  /** `init_value` keeps the layout. */
  lemma AppendedLayout(buf0: seq<Byte>, used0: nat, positions: map<Key, nat>, es: seq<Entry>, key: Key,
                       buf1: seq<Byte>, buf2: seq<Byte>)
    requires Layout(buf0, used0, positions, es) && key !in positions
    requires used0 + EntrySize(|key|) <= |buf0|
    requires buf1 == buf0[..used0] + EncodeEntry(Entry(key, ZeroValue)) + buf0[used0 + EntrySize(|key|)..]
    requires buf2 == buf1[..0] + PackInt32(used0 + EntrySize(|key|)) + buf1[4..]
    ensures |buf2| == |buf0|
    ensures Layout(buf2, used0 + EntrySize(|key|), positions[key := used0 + EntrySize(|key|) - 8], es + [Entry(key, ZeroValue)])
  {
    var e := Entry(key, ZeroValue);
    IndexedKey(buf0, used0, positions, es, key);
    AppendedBytes(buf0, used0, EncodeEntry(e), buf1, buf2);
    AppendedEntry(es, e);
    AppendedIndex(es, e, used0 + EntrySize(|key|));
  }

  /** Appending a new key extends the region by its entry and keeps the keys distinct. */
  lemma AppendedEntry(es: seq<Entry>, e: Entry)
    requires DistinctKeys(es) && e.key !in KeySet(es)
    ensures Encode(es + [e]) == Encode(es) + EncodeEntry(e)
    ensures DistinctKeys(es + [e])
  {
    var es' := es + [e];
    EncodeAppend(es, e);
    forall i, j | 0 <= i < j < |es'| ensures es'[i].key != es'[j].key {
      if j == |es| {
        assert es'[i].key == es[i].key;
        assert es[i].key in KeySet(es);
      }
    }
  }

  /** The value of the `j`-th entry is the 8 bytes at its indexed offset. */
  lemma SlotLayout(buf: seq<Byte>, used: nat, positions: map<Key, nat>, es: seq<Entry>, j: nat)
    requires Layout(buf, used, positions, es) && j < |es|
    ensures es[j].key in positions && positions[es[j].key] == HeaderSize + SlotOffset(KeySeq(es), j)
    ensures positions[es[j].key] + 8 <= used
    ensures buf[positions[es[j].key]..positions[es[j].key] + 8] == es[j].value
  {
    IndexOfAt(es, HeaderSize, j);
    SlotHoldsValue(es, j);
    var o := SlotOffset(KeySeq(es), j);
    RegionSlot(buf, used, Encode(es), o, es[j].value);
  }

  /** Bytes at offset `o` of the entries region are at `8 + o` of the buffer. */
  lemma RegionSlot(buf: seq<Byte>, used: nat, region: seq<Byte>, o: nat, v: seq<Byte>)
    requires HeaderSize <= used <= |buf| && buf[HeaderSize..used] == region
    requires o + |v| <= |region| && region[o..o + |v|] == v
    ensures HeaderSize + o + |v| <= used && buf[HeaderSize + o..HeaderSize + o + |v|] == v
  {
    SliceOfSlice(buf, HeaderSize, region, o, o + |v|);
  }

  lemma OverwrittenBytes(buf0: seq<Byte>, used: nat, region: seq<Byte>, o: nat, v: seq<Byte>, buf1: seq<Byte>)
    requires HeaderSize <= used <= |buf0| && buf0[HeaderSize..used] == region
    requires |v| == 8 && o + 8 <= |region|
    requires buf1 == buf0[..HeaderSize + o] + v + buf0[HeaderSize + o + 8..]
    ensures |buf1| == |buf0| && buf1[0..4] == buf0[0..4]
    ensures buf1[HeaderSize..used] == region[..o] + v + region[o + 8..]
  {
    var pos := HeaderSize + o;
    assert buf1[HeaderSize..used] == buf0[HeaderSize..pos] + v + buf0[pos + 8..used];
    SliceOfSlice(buf0, HeaderSize, region, 0, o);
    SliceOfSlice(buf0, HeaderSize, region, o + 8, |region|);
  }

  lemma KeySetUpdate(es: seq<Entry>, j: nat, v: Blob)
    requires j < |es|
    ensures KeySet(es[j := Entry(es[j].key, v)]) == KeySet(es)
    ensures KeySeq(es[j := Entry(es[j].key, v)]) == KeySeq(es)
  {
    var es' := es[j := Entry(es[j].key, v)];
    assert KeySeq(es') == KeySeq(es);
    forall k | k in KeySet(es') ensures k in KeySet(es) {
      var i :| 0 <= i < |es'| && es'[i].key == k;
      assert es[i].key == k;
    }
    forall k | k in KeySet(es) ensures k in KeySet(es') {
      var i :| 0 <= i < |es| && es[i].key == k;
      assert es'[i].key == k;
    }
  }

  lemma {:induction false} IndexOfSameSlots(a: seq<Item>, b: seq<Item>)
    requires |a| == |b|
    requires forall i :: 0 <= i < |a| ==> a[i].key == b[i].key && a[i].pos == b[i].pos
    ensures IndexOf(a) == IndexOf(b)
  {
    if a != [] {
      var n := |a| - 1;
      IndexOfSameSlots(a[..n], b[..n]);
    }
  }

  /** Overwriting a value moves no slot, so the index a scan builds stays the same. */
  lemma IndexOfUpdate(es: seq<Entry>, j: nat, v: Blob, base: nat)
    requires j < |es|
    ensures IndexOf(Items(es[j := Entry(es[j].key, v)], base)) == IndexOf(Items(es, base))
  {
    var es' := es[j := Entry(es[j].key, v)];
    KeySetUpdate(es, j, v);
    forall i | 0 <= i < |es|
      ensures Items(es', base)[i].key == Items(es, base)[i].key && Items(es', base)[i].pos == Items(es, base)[i].pos
    {
      ItemsAt(es', base, i);
      ItemsAt(es, base, i);
    }
    IndexOfSameSlots(Items(es', base), Items(es, base));
  }

  /** `write_value` on an indexed key changes that entry's value and keeps the layout. */
  lemma OverwrittenLayout(buf0: seq<Byte>, used: nat, positions: map<Key, nat>, es: seq<Entry>, j: nat, v: Blob, buf1: seq<Byte>)
    requires Layout(buf0, used, positions, es) && j < |es|
    requires es[j].key in positions && positions[es[j].key] == HeaderSize + SlotOffset(KeySeq(es), j)
    requires positions[es[j].key] + 8 <= |buf0|
    requires buf1 == buf0[..positions[es[j].key]] + v + buf0[positions[es[j].key] + 8..]
    ensures Layout(buf1, used, positions, es[j := Entry(es[j].key, v)])
  {
    var es' := es[j := Entry(es[j].key, v)];
    var o := SlotOffset(KeySeq(es), j);
    EncodeUpdateSlot(es, j, v);
    OverwrittenBytes(buf0, used, Encode(es), o, v, buf1);
    DistinctUpdate(es, j, v);
    IndexOfUpdate(es, j, v, HeaderSize);
  }

  // ---------------------------------------------------------------------------

  class MmapedDict {
    var m: array<Byte>
    var capacity: nat
    var used: nat
    var positions: map<Key, nat>
    /** The entries in file order. */
    ghost var entries: seq<Entry>

    ghost predicate Valid()
      reads this, m
    {
      capacity == m.Length && Layout(m[..], used, positions, entries)
    }

    /** Every key with its current value. */
    ghost function Contents(): map<Key, Blob>
      reads this
    {
      ToMap(entries)
    }

    constructor Attach(a: array<Byte>, u: nat, index: map<Key, nat>, ghost es: seq<Entry>)
      ensures m == a && capacity == a.Length && used == u && positions == index && entries == es
    {
      m := a;
      capacity := a.Length;
      used := u;
      positions := index;
      entries := es;
    }

    /**
     * `MmapedDict.new`: an empty file grows to the initial size; a zero
     * `used` is set to 8 and written to the header; any other `used` is
     * kept and the position index is rebuilt by scanning.
     */
    static method Open(file: seq<Byte>) returns (r: Result<MmapedDict, DictError>)
      ensures r.Success? <==> Decoded(file).Success?
      ensures r.Success? ==>
        && fresh(r.value) && fresh(r.value.m) && r.value.Valid()
        && r.value.capacity == |OpenBuffer(file)|
        && r.value.used == Decoded(file).value.used
        && r.value.entries == Decoded(file).value.entries
        && r.value.m[..] == OpenBuffer(file)[..0] + PackInt32(Decoded(file).value.used) + OpenBuffer(file)[4..]
    {
      var buf := if |file| == 0 then Zeros(InitialMmapSize) else file;
      assert buf == OpenBuffer(file);
      if |buf| < HeaderSize {
        return Failure(Malformed);
      }
      var u := UnpackInt32(buf[0..4]);
      if u == 0 {
        var blank := buf[..0] + PackInt32(HeaderSize) + buf[4..];
        var a := FromSeq(blank);
        assert blank[0..4] == PackInt32(HeaderSize);
        BlankLayout(blank);
        var d := new MmapedDict.Attach(a, HeaderSize, map[], []);
        return Success(d);
      }
      if u < HeaderSize || u > |buf| {
        return Failure(Malformed);
      }
      var scanned := ScanEntries(buf, u);
      if scanned.Failure? {
        return Failure(Malformed);
      }
      var items := scanned.value;
      var es := EntriesOf(items);
      if buf[HeaderSize..u] != Encode(es) || !DistinctKeys(es) {
        return Failure(Malformed);
      }
      var index := BuildIndex(items);
      OpenedLayout(buf, u, items, es);
      var a := FromSeq(buf);
      var d := new MmapedDict.Attach(a, u, index, es);
      return Success(d);
    }

    /** `read_all_values`: the decoded (key, value, offset) triples. */
    method ReadAllValues() returns (r: Result<seq<Item>, DictError>)
      ensures r == ReadFrom(m[..], HeaderSize, used)
    {
      r := ScanEntries(m[..], used);
    }

    /** `all_values`: the (key, value) pairs of `read_all_values`. */
    method AllValues() returns (r: Result<seq<Entry>, DictError>)
      ensures r.Success? <==> ReadFrom(m[..], HeaderSize, used).Success?
      ensures r.Success? ==> r.value == EntriesOf(ReadFrom(m[..], HeaderSize, used).value)
      ensures Valid() && AllStorable(entries) ==> r == Success(entries)
    {
      if Valid() && AllStorable(entries) {
        ScanRoundTrip(this);
        EntriesOfItems(entries, HeaderSize);
      }
      var scanned := ReadAllValues();
      if scanned.Failure? {
        return Failure(Malformed);
      }
      r := Success(EntriesOf(scanned.value));
    }

    /** `m.extend(capacity)`: the mapping doubles, the new half zero-filled. */
    method Extend()
      requires Valid()
      modifies this
      ensures Valid() && fresh(m)
      ensures capacity == 2 * old(capacity)
      ensures m[..] == old(m[..]) + Zeros(old(capacity))
      ensures used == old(used) && positions == old(positions) && entries == old(entries)
    {
      var n := 2 * capacity;
      var old_m := m;
      var a := new Byte[n](i requires 0 <= i < n reads old_m => if i < old_m.Length then old_m[i] else 0);
      assert a[..] == m[..] + Zeros(capacity);
      ExtendedLayout(m[..], used, positions, entries, capacity);
      m := a;
      capacity := n;
    }

    /** The `while` loop of `init_value`: double the mapping until `need` more bytes fit. */
    method Reserve(need: nat)
      requires Valid()
      modifies this
      ensures Valid() && (fresh(m) || m == old(m))
      ensures used == old(used) && positions == old(positions) && entries == old(entries)
      ensures used + need <= capacity
      ensures old(capacity) <= capacity && m[..] == old(m[..]) + Zeros(capacity - old(capacity))
      ensures exists j: nat :: capacity == Doubled(old(capacity), j)
      ensures old(capacity) < capacity ==> capacity < 2 * (used + need)
    {
      ghost var doublings: nat := 0;
      assert m[..] == old(m[..]) + Zeros(0);
      while used + need > capacity
        invariant Valid() && (fresh(m) || m == old(m))
        invariant used == old(used) && positions == old(positions) && entries == old(entries)
        invariant old(capacity) <= capacity && m[..] == old(m[..]) + Zeros(capacity - old(capacity))
        invariant capacity == Doubled(old(capacity), doublings)
        invariant old(capacity) < capacity ==> capacity < 2 * (used + need)
        decreases used + need - capacity
      {
        ghost var before := capacity;
        Extend();
        ZerosAdd(before - old(capacity), before);
        doublings := doublings + 1;
      }
    }

    /**
     * `init_value`: append an entry for a key not yet present, with value
     * 0.0, doubling the capacity until it fits.
     */
    method InitValue(key: Key)
      requires Valid() && key !in positions
      modifies this, m
      ensures Valid() && (fresh(m) || m == old(m))
      ensures entries == old(entries) + [Entry(key, ZeroValue)]
      ensures used == old(used) + EntrySize(|key|)
      ensures positions == old(positions)[key := used - 8]
      ensures exists j: nat :: capacity == Doubled(old(capacity), j)
      ensures old(capacity) < capacity ==> capacity < 2 * used
    {
      Reserve(EntrySize(|key|));
      Append(key);
    }

    /** The two writes of `init_value` once the entry fits: the entry, then the new `used`. */
    method Append(key: Key)
      requires Valid() && key !in positions && used + EntrySize(|key|) <= capacity
      modifies this, m
      ensures Valid() && m == old(m) && capacity == old(capacity)
      ensures entries == old(entries) + [Entry(key, ZeroValue)]
      ensures used == old(used) + EntrySize(|key|)
      ensures positions == old(positions)[key := used - 8]
    {
      var value := EncodeEntry(Entry(key, ZeroValue));
      var u1 := used + |value|;
      ghost var m0 := m[..];
      ghost var es1 := entries + [Entry(key, ZeroValue)];
      var p1 := positions[key := u1 - 8];
      WriteBytes(m, used, value);
      ghost var m1 := m[..];
      WriteBytes(m, 0, PackInt32(u1));
      AppendedLayout(m0, used, positions, entries, key, m1, m[..]);
      used, positions, entries := u1, p1, es1;
    }

    /** The store into the slot of a key already indexed. */
    method Overwrite(key: Key, value: Blob)
      requires Valid() && key in positions
      modifies this, m
      ensures Valid() && m == old(m)
      ensures used == old(used) && capacity == old(capacity) && positions == old(positions)
      ensures KeySeq(entries) == old(KeySeq(entries))
      ensures Contents() == old(Contents())[key := value]
    {
      var pos := positions[key];
      IndexedKey(m[..], used, positions, entries, key);
      ghost var j :| 0 <= j < |entries| && entries[j].key == key;
      ghost var es := entries;
      SlotLayout(m[..], used, positions, es, j);
      ghost var before := m[..];
      WriteBytes(m, pos, value);
      OverwrittenLayout(before, used, positions, es, j, value, m[..]);
      KeySetUpdate(es, j, value);
      ToMapUpdate(es, j, value);
      entries := es[j := Entry(key, value)];
    }

    /** `write_value`: overwrite the value of `key`, inserting the key first if it is new. */
    method WriteValue(key: Key, value: Blob)
      requires Valid()
      modifies this, m
      ensures Valid() && (fresh(m) || m == old(m))
      ensures Contents() == old(Contents())[key := value]
      ensures KeySeq(entries) == if key in old(positions) then old(KeySeq(entries)) else old(KeySeq(entries)) + [key]
      ensures positions == if key in old(positions) then old(positions) else old(positions)[key := old(used) + EntrySize(|key|) - 8]
    {
      if key in positions {
        Overwrite(key, value);
      } else {
        ghost var c0 := Contents();
        ghost var es0 := entries;
        InitValue(key);
        ToMapAppend(es0, Entry(key, ZeroValue));
        ghost var c1 := Contents();
        assert c1[key := value] == c0[key := value];
        Overwrite(key, value);
      }
    }

    /** The load from the slot of a key already indexed. */
    method Load(key: Key) returns (v: Blob)
      requires Valid() && key in positions
      ensures key in Contents() && v == Contents()[key]
    {
      var pos := positions[key];
      IndexedKey(m[..], used, positions, entries, key);
      ghost var j :| 0 <= j < |entries| && entries[j].key == key;
      ghost var buf := m[..];
      SlotLayout(buf, used, positions, entries, j);
      ToMapAt(entries, j);
      v := m[pos..pos + 8];
      assert v == buf[pos..pos + 8];
    }

    /** `read_value`: the value of `key`, inserting the key with value 0.0 first if it is new. */
    method ReadValue(key: Key) returns (v: Blob)
      requires Valid()
      modifies this, m
      ensures Valid() && (fresh(m) || m == old(m))
      ensures v == if key in old(Contents()) then old(Contents())[key] else ZeroValue
      ensures Contents() == old(Contents())[key := v]
      ensures KeySeq(entries) == if key in old(positions) then old(KeySeq(entries)) else old(KeySeq(entries)) + [key]
      ensures positions == if key in old(positions) then old(positions) else old(positions)[key := old(used) + EntrySize(|key|) - 8]
    {
      if key in positions {
        IndexedKey(m[..], used, positions, entries, key);
        ToMapFacts(entries);
        v := Load(key);
        assert Contents()[key := v] == Contents();
      } else {
        ghost var es0 := entries;
        IndexedKey(m[..], used, positions, entries, key);
        ToMapFacts(entries);
        InitValue(key);
        ToMapAppend(es0, Entry(key, ZeroValue));
        v := Load(key);
      }
    }
  }

  /** Keys a scan reports never end in a space or NUL and fit the length field. */
  lemma {:induction false} ScannedKeysStorable(buf: seq<Byte>, pos: nat, used: nat)
    requires ReadFrom(buf, pos, used).Success?
    ensures forall i :: 0 <= i < |ReadFrom(buf, pos, used).value| ==> Storable(ReadFrom(buf, pos, used).value[i].key)
    decreases used - pos
  {
    if pos < used {
      assert ReadFrom(buf, pos, used) == ReadEntryAt(buf, pos, used);
      var item := ScanEntry(buf, pos).value;
      ScannedKeysStorable(buf, item.pos + 8, used);
    }
  }

  /** A new, empty file opens as a blank dictionary. */
  lemma NewFileIsBlank()
    ensures Decoded([]) == Success(Image(HeaderSize, []))
  {
    var buf := OpenBuffer([]);
    assert buf[0..4] == [0, 0, 0, 0];
    assert [0, 0, 0, 0][1..] == [0, 0, 0] && [0, 0, 0][1..] == [0, 0] && [0, 0][1..] == [0];
    assert UnpackLE([0, 0]) == 0;
    assert UnpackLE(buf[0..4]) == 0;
  }

  /** Every key of a file that opens is one the dictionary reads back unchanged. */
  lemma DecodedStorable(file: seq<Byte>)
    requires Decoded(file).Success?
    ensures AllStorable(Decoded(file).value.entries)
  {
    var buf := OpenBuffer(file);
    var used := UnpackInt32(buf[0..4]);
    if used != 0 {
      ScannedKeysStorable(buf, HeaderSize, used);
    }
  }

  /** Scanning a dictionary's own buffer recovers exactly its entries, with their value offsets. */
  lemma ScanRoundTrip(d: MmapedDict)
    requires d.Valid() && AllStorable(d.entries)
    ensures ReadFrom(d.m[..], HeaderSize, d.used) == Success(Items(d.entries, HeaderSize))
  {
    RegionLayout(d.m[..], HeaderSize, d.used, d.entries);
    ReadEncoded(d.m[..], HeaderSize, d.entries, d.used);
  }

  /** Every value offset in the index is 8-byte aligned and its slot lies below `used`. */
  lemma PositionsAligned(d: MmapedDict)
    requires d.Valid()
    ensures forall k :: k in d.positions ==> d.positions[k] % 8 == 0 && d.positions[k] + 8 <= d.used
  {
    var es := d.entries;
    EncodeLength(es);
    assert Size(KeySeq(es)) == d.used - HeaderSize;
    IndexOfItems(es, HeaderSize);
    forall k | k in d.positions ensures d.positions[k] % 8 == 0 && d.positions[k] + 8 <= d.used {
      assert k in KeySet(es);
      var j :| 0 <= j < |es| && es[j].key == k;
      SlotOffsetAligned(KeySeq(es), j);
      var o := SlotOffset(KeySeq(es), j);
      assert d.positions[k] == HeaderSize + o;
      AlignedAfterHeader(o);
    }
  }

  lemma AlignedAfterHeader(o: nat)
    requires o % 8 == 0
    ensures (HeaderSize + o) % 8 == 0
  {
  }

  /** Each key is shorter than the entries region that holds it. */
  lemma {:induction false} KeyWithinSize(keys: seq<Key>, j: nat)
    requires j < |keys|
    ensures |keys[j]| < Size(keys)
  {
    if j > 0 {
      KeyWithinSize(keys[1..], j - 1);
    }
  }

  /**
   * In a mapping whose `used` fits the 32-bit header, every key that does
   * not end in a space or NUL is storable.
   */
  lemma StorableWhenSmall(d: MmapedDict)
    requires d.Valid() && d.used < Two31
    requires forall i :: 0 <= i < |d.entries| ==> Unpadded(d.entries[i].key)
    ensures AllStorable(d.entries)
  {
    EncodeLength(d.entries);
    forall i | 0 <= i < |d.entries| ensures Storable(d.entries[i].key) {
      KeyWithinSize(KeySeq(d.entries), i);
    }
  }

  /**
   * Re-opening a dictionary's buffer finds the same `used`, the same entries
   * and rebuilds the same position index.
   */
  lemma ReopenRoundTrip(d: MmapedDict)
    requires d.Valid() && AllStorable(d.entries) && d.used < Two31
    ensures Decoded(d.m[..]) == Success(Image(d.used, d.entries))
    ensures IndexOf(Items(d.entries, HeaderSize)) == d.positions
  {
    var buf := d.m[..];
    assert buf[0..4] == d.m[0..4];
    Int32RoundTrip(d.used);
    ScanRoundTrip(d);
    EntriesOfItems(d.entries, HeaderSize);
    assert buf[HeaderSize..d.used] == d.m[HeaderSize..d.used];
  }
}
