/**
 * The label-set codec of the mmap store: `store_key` turns a label set into
 * one query-string key, `name1=value1&name2=value2`, percent-escaping every
 * name and value as Ruby's `CGI.escape` does (section 2.1 of RFC 3986, with
 * space written as `+` in the application/x-www-form-urlencoded style), and
 * the read side turns the key back into a label set with `CGI::parse`,
 * keeping the first value of each name.
 *
 * Names and values are byte strings: the UTF-8 bytes of the Ruby strings
 * that `to_s` produces.
 */
module LabelCodec {
  import opened Bytes
  import opened Wrappers

  type ByteString = seq<Byte>

  const Percent: Byte := 37
  const Amp: Byte := 38
  const Plus: Byte := 43
  const Semicolon: Byte := 59
  const Equals: Byte := 61

  /** One (name, value) pair of a label set, after `to_s`. */
  datatype Label = Label(name: ByteString, value: ByteString)

  /** A decoded label set: each name with its first value, or None for a name given without `=`. */
  type LabelSet = map<ByteString, Option<ByteString>>

  // ---------------------------------------------------------------------------
  // CGI.escape / CGI.unescape

  /** Bytes that `CGI.escape` leaves as they are: letters, digits and `_ . - ~`. */
  predicate Unreserved(b: Byte) {
    || (65 <= b <= 90) || (97 <= b <= 122) || (48 <= b <= 57)
    || b == 95 || b == 46 || b == 45 || b == 126
  }

  /** Upper-case hexadecimal digit, as `CGI.escape` writes it. */
  function HexDigit(n: nat): (r: Byte)
    requires n < 16
    ensures Unreserved(r)
  {
    if n < 10 then 48 + n else 55 + n
  }

  /** Hexadecimal digits that `CGI.unescape` accepts, in either case. */
  predicate IsHex(b: Byte) {
    (48 <= b <= 57) || (65 <= b <= 70) || (97 <= b <= 102)
  }

  function HexValue(b: Byte): (n: nat)
    requires IsHex(b)
    ensures n < 16
  {
    if b <= 57 then b - 48 else if b <= 70 then b - 55 else b - 87
  }

  lemma HexDigitValue(n: nat)
    requires n < 16
    ensures IsHex(HexDigit(n)) && HexValue(HexDigit(n)) == n
  {
  }

  /** The bytes an escaped string is made of. */
  predicate EscapedByte(b: Byte) {
    Unreserved(b) || b == Plus || b == Percent
  }

  function EscapeByte(b: Byte): (r: ByteString)
    ensures forall i :: 0 <= i < |r| ==> EscapedByte(r[i])
  {
    if Unreserved(b) then [b]
    else if b == Space then [Plus]
    else [Percent, HexDigit(b / 16), HexDigit(b % 16)]
  }

  /**
   * `CGI.escape`.  The result is ASCII and holds none of the bytes that the
   * key format and the dictionary give a meaning to: `&`, `;`, `=`, space
   * and NUL.
   */
  function Escape(s: ByteString): (r: ByteString)
    ensures forall i :: 0 <= i < |r| ==> EscapedByte(r[i])
    ensures forall i :: 0 <= i < |r| ==>
      r[i] < 128 && r[i] != Amp && r[i] != Semicolon && r[i] != Equals && r[i] != Space && r[i] != Nul
  {
    if s == [] then [] else EscapeByte(s[0]) + Escape(s[1..])
  }

  /** `CGI.unescape`: `+` becomes a space, `%XX` the byte XX; anything else stays. */
  function Unescape(s: ByteString): ByteString
    decreases |s|
  {
    if s == [] then []
    else if s[0] == Plus then [Space] + Unescape(s[1..])
    else if s[0] == Percent && |s| >= 3 && IsHex(s[1]) && IsHex(s[2]) then
      [HexValue(s[1]) * 16 + HexValue(s[2])] + Unescape(s[3..])
    else [s[0]] + Unescape(s[1..])
  }

  lemma UnescapeUnit(b: Byte, rest: ByteString)
    ensures Unescape(EscapeByte(b) + rest) == [b] + Unescape(rest)
  {
    var s := EscapeByte(b) + rest;
    if Unreserved(b) {
      assert s[1..] == rest;
    } else if b == Space {
      assert s[1..] == rest;
    } else {
      HexDigitValue(b / 16);
      HexDigitValue(b % 16);
      assert s[3..] == rest;
    }
  }

  /** Unescaping undoes escaping, so escaping is injective. */
  lemma {:induction false} UnescapeEscape(s: ByteString)
    ensures Unescape(Escape(s)) == s
  {
    if s != [] {
      UnescapeUnit(s[0], Escape(s[1..]));
      UnescapeEscape(s[1..]);
      assert [s[0]] + s[1..] == s;
    }
  }

  lemma EscapeInjective(s: ByteString, t: ByteString)
    requires Escape(s) == Escape(t)
    ensures s == t
  {
    UnescapeEscape(s);
    UnescapeEscape(t);
  }

  // ---------------------------------------------------------------------------
  // store_key

  function EncodePair(l: Label): (r: ByteString)
    ensures |r| > 0
  {
    Escape(l.name) + [Equals] + Escape(l.value)
  }

  /** `store_key`: the escaped pairs joined with `&`, in the order given. */
  function StoreKey(labels: seq<Label>): ByteString
  {
    if labels == [] then []
    else if |labels| == 1 then EncodePair(labels[0])
    else EncodePair(labels[0]) + [Amp] + StoreKey(labels[1..])
  }

  /** Every key `store_key` produces is ASCII and has no space or NUL, so the dictionary stores it unchanged. */
  lemma {:induction false} StoreKeyBytes(labels: seq<Label>)
    ensures forall i :: 0 <= i < |StoreKey(labels)| ==>
      StoreKey(labels)[i] < 128 && StoreKey(labels)[i] != Space && StoreKey(labels)[i] != Nul
  {
    if |labels| > 1 {
      StoreKeyBytes(labels[1..]);
    }
  }

  // ---------------------------------------------------------------------------
  // CGI::parse

  predicate IsSeparator(b: Byte) {
    b == Amp || b == Semicolon
  }

  /** The fields of `s` between separators, empty ones included. */
  function Fields(s: ByteString): (r: seq<ByteString>)
    ensures |r| >= 1
  {
    if s == [] then [[]]
    else
      var rest := Fields(s[1..]);
      if IsSeparator(s[0]) then [[]] + rest else [[s[0]] + rest[0]] + rest[1..]
  }

  function DropTrailingEmpty(fs: seq<ByteString>): seq<ByteString>
  {
    if fs == [] then []
    else if fs[|fs| - 1] == [] then DropTrailingEmpty(fs[..|fs| - 1])
    else fs
  }

  /** Ruby's `query.split(/[&;]/)`: trailing empty fields are dropped. */
  function Split(q: ByteString): seq<ByteString>
  {
    DropTrailingEmpty(Fields(q))
  }

  /** Ruby's `piece.split('=', 2)`: the name, and the value when there is an `=`. */
  function SplitFirstEquals(p: ByteString): (ByteString, Option<ByteString>)
  {
    if p == [] then ([], None)
    else if p[0] == Equals then ([], Some(p[1..]))
    else
      var (k, v) := SplitFirstEquals(p[1..]);
      ([p[0]] + k, v)
  }

  function UnescapeOption(v: Option<ByteString>): Option<ByteString>
  {
    match v
    case None => None
    case Some(s) => Some(Unescape(s))
  }

  /** The unescaped (name, value) pairs of the pieces, in order; an empty piece has no name and is skipped. */
  function DecodePairs(pieces: seq<ByteString>): seq<(ByteString, Option<ByteString>)>
  {
    if pieces == [] then []
    else
      var rest := DecodePairs(pieces[1..]);
      if pieces[0] == [] then rest
      else
        var (k, v) := SplitFirstEquals(pieces[0]);
        [(Unescape(k), UnescapeOption(v))] + rest
  }

  /** The hash of value lists `CGI::parse` builds, one pair at a time. */
  function Params(ps: seq<(ByteString, Option<ByteString>)>): map<ByteString, seq<ByteString>>
  {
    if ps == [] then map[]
    else
      var m := Params(ps[..|ps| - 1]);
      var (k, v) := ps[|ps| - 1];
      var prior := if k in m then m[k] else [];
      m[k := prior + (if v.Some? then [v.value] else [])]
  }

  /** `CGI::parse(q).map { |k, vs| [k, vs.first] }.to_h`. */
  function ParseQuery(q: ByteString): LabelSet
  {
    var params := Params(DecodePairs(Split(q)));
    map k | k in params :: if params[k] == [] then None else Some(params[k][0])
  }

  // ---------------------------------------------------------------------------
  // Round trip

  predicate NoSeparator(p: ByteString) {
    forall i :: 0 <= i < |p| ==> !IsSeparator(p[i])
  }

  predicate DistinctNames(labels: seq<Label>) {
    forall i, j :: 0 <= i < j < |labels| ==> labels[i].name != labels[j].name
  }

  /** The pairs a label set is made of, each value present. */
  function LabelPairs(labels: seq<Label>): (r: seq<(ByteString, Option<ByteString>)>)
    ensures |r| == |labels|
    ensures forall i :: 0 <= i < |r| ==> r[i] == (labels[i].name, Some(labels[i].value))
  {
    if labels == [] then [] else LabelPairs(labels[..|labels| - 1]) + [(labels[|labels| - 1].name, Some(labels[|labels| - 1].value))]
  }

  /** The Ruby hash `labels` itself: each name with its value. */
  function LabelMap(labels: seq<Label>): LabelSet
  {
    if labels == [] then map[]
    else LabelMap(labels[..|labels| - 1])[labels[|labels| - 1].name := Some(labels[|labels| - 1].value)]
  }

  function Pieces(labels: seq<Label>): (r: seq<ByteString>)
    ensures |r| == |labels|
    ensures forall i :: 0 <= i < |r| ==> r[i] == EncodePair(labels[i])
  {
    if labels == [] then [] else [EncodePair(labels[0])] + Pieces(labels[1..])
  }

  lemma EscapedNoSeparator(s: ByteString)
    ensures NoSeparator(Escape(s))
  {
  }

  lemma {:induction false} FieldsOfPlain(p: ByteString)
    requires NoSeparator(p)
    ensures Fields(p) == [p]
  {
    if p != [] {
      FieldsOfPlain(p[1..]);
      assert [p[0]] + p[1..] == p;
    }
  }

  lemma {:induction false} FieldsOfJoin(p: ByteString, rest: ByteString)
    requires NoSeparator(p)
    ensures Fields(p + [Amp] + rest) == [p] + Fields(rest)
  {
    if p == [] {
      assert (p + [Amp] + rest)[1..] == rest;
    } else {
      FieldsOfJoin(p[1..], rest);
      assert (p + [Amp] + rest)[1..] == p[1..] + [Amp] + rest;
      assert [p[0]] + p[1..] == p;
    }
  }

  lemma {:induction false} FieldsOfStoreKey(labels: seq<Label>)
    requires |labels| >= 1
    ensures Fields(StoreKey(labels)) == Pieces(labels)
  {
    var p := EncodePair(labels[0]);
    EscapedNoSeparator(labels[0].name);
    EscapedNoSeparator(labels[0].value);
    assert NoSeparator(p);
    if |labels| == 1 {
      FieldsOfPlain(p);
    } else {
      FieldsOfJoin(p, StoreKey(labels[1..]));
      FieldsOfStoreKey(labels[1..]);
    }
  }

  lemma SplitOfStoreKey(labels: seq<Label>)
    ensures Split(StoreKey(labels)) == Pieces(labels)
  {
    if labels != [] {
      FieldsOfStoreKey(labels);
      assert Pieces(labels)[|labels| - 1] != [];
    }
  }

  lemma {:induction false} SplitFirstEqualsOfPair(n: ByteString, v: ByteString)
    requires forall i :: 0 <= i < |n| ==> n[i] != Equals
    ensures SplitFirstEquals(n + [Equals] + v) == (n, Some(v))
  {
    if n == [] {
      assert (n + [Equals] + v)[1..] == v;
    } else {
      SplitFirstEqualsOfPair(n[1..], v);
      assert (n + [Equals] + v)[1..] == n[1..] + [Equals] + v;
      assert [n[0]] + n[1..] == n;
    }
  }

  lemma {:induction false} DecodePairsOfPieces(labels: seq<Label>)
    ensures DecodePairs(Pieces(labels)) == LabelPairs(labels)
  {
    if labels != [] {
      DecodePairsOfPieces(labels[1..]);
      assert Pieces(labels) == [EncodePair(labels[0])] + Pieces(labels[1..]);
      DecodeOnePair(labels[0], Pieces(labels[1..]));
      LabelPairsCons(labels);
    }
  }

  /** One encoded pair in front of other pieces decodes to that label. */
  lemma DecodeOnePair(l: Label, tail: seq<ByteString>)
    ensures DecodePairs([EncodePair(l)] + tail) == [(l.name, Some(l.value))] + DecodePairs(tail)
  {
    var pieces := [EncodePair(l)] + tail;
    assert pieces[1..] == tail;
    SplitFirstEqualsOfPair(Escape(l.name), Escape(l.value));
    UnescapeEscape(l.name);
    UnescapeEscape(l.value);
  }

  lemma LabelPairsCons(labels: seq<Label>)
    requires labels != []
    ensures LabelPairs(labels) == [(labels[0].name, Some(labels[0].value))] + LabelPairs(labels[1..])
  {
  }

  /** Decoding a key recovers the pairs it was built from, in order. */
  lemma StoreKeyRoundTrip(labels: seq<Label>)
    ensures DecodePairs(Split(StoreKey(labels))) == LabelPairs(labels)
  {
    SplitOfStoreKey(labels);
    DecodePairsOfPieces(labels);
  }

  /** Two label sequences share a key only if they are the same sequence (order included). */
  lemma StoreKeyInjective(l1: seq<Label>, l2: seq<Label>)
    requires StoreKey(l1) == StoreKey(l2)
    ensures l1 == l2
  {
    StoreKeyRoundTrip(l1);
    StoreKeyRoundTrip(l2);
    assert |l1| == |l2|;
    forall i | 0 <= i < |l1| ensures l1[i] == l2[i] {
      assert LabelPairs(l1)[i] == LabelPairs(l2)[i];
    }
  }

  lemma {:induction false} ParamsOfLabels(labels: seq<Label>)
    requires DistinctNames(labels)
    ensures Params(LabelPairs(labels)).Keys == LabelMap(labels).Keys
    ensures forall k :: k in LabelMap(labels) ==>
      LabelMap(labels)[k].Some? && Params(LabelPairs(labels))[k] == [LabelMap(labels)[k].value]
  {
    if labels != [] {
      var n := |labels| - 1;
      var init := labels[..n];
      assert DistinctNames(init);
      ParamsOfLabels(init);
      assert LabelPairs(labels)[..n] == LabelPairs(init);
      NamesOfLabelMap(init);
      assert labels[n].name !in LabelMap(init);
    }
  }

  lemma {:induction false} NamesOfLabelMap(labels: seq<Label>)
    ensures forall k :: k in LabelMap(labels) <==> exists i :: 0 <= i < |labels| && labels[i].name == k
  {
    if labels != [] {
      var n := |labels| - 1;
      NamesOfLabelMap(labels[..n]);
      forall k | k in LabelMap(labels)
        ensures exists i :: 0 <= i < |labels| && labels[i].name == k
      {
        if k != labels[n].name {
          assert k in LabelMap(labels[..n]);
          var i :| 0 <= i < |labels[..n]| && labels[..n][i].name == k;
          assert labels[i].name == k;
        }
      }
      forall k | exists i :: 0 <= i < |labels| && labels[i].name == k
        ensures k in LabelMap(labels)
      {
        var i :| 0 <= i < |labels| && labels[i].name == k;
        if i < n {
          assert labels[..n][i].name == k;
        }
      }
    }
  }

  /**
   * The read side recovers the label set the write side encoded: parsing
   * `store_key(labels)` yields exactly `labels`' names, each with its value.
   */
  lemma ParseStoreKey(labels: seq<Label>)
    requires DistinctNames(labels)
    ensures ParseQuery(StoreKey(labels)) == LabelMap(labels)
  {
    StoreKeyRoundTrip(labels);
    ParamsOfLabels(labels);
    var params := Params(LabelPairs(labels));
    var parsed := ParseQuery(StoreKey(labels));
    assert parsed.Keys == LabelMap(labels).Keys;
    forall k | k in parsed ensures parsed[k] == LabelMap(labels)[k] {
      assert params[k] == [LabelMap(labels)[k].value];
    }
  }
}
