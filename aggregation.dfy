/**
 * The read side of the mmap store's `all_values`: the values every metric
 * file holds are grouped by their decoded label set, and each group is
 * folded with the metric's aggregation mode (`aggregate_values`).
 *
 * Values are integers here; the source adds and compares doubles.
 */
module Aggregation {
  import opened Wrappers
  import opened StoreSettings
  import opened LabelCodec

  const Max: Setting := Symbol("max")
  const Min: Setting := Symbol("min")
  const Sum: Setting := Symbol("sum")

  /** `AGGREGATION_MODES`. */
  const AggregationModes: set<Setting> := {Max, Min, Sum}

  // ---------------------------------------------------------------------------
  // Folding one group

  /** The total of the values, the reference the folds below are proved against. */
  function Total(vs: seq<int>): int
  {
    if vs == [] then 0 else vs[0] + Total(vs[1..])
  }

  /** The `inject` fold carried on from the running sum `acc`. */
  function SumFrom(acc: int, vs: seq<int>): (r: int)
    ensures r == acc + Total(vs)
    decreases |vs|
  {
    if vs == [] then acc else SumFrom(acc + vs[0], vs[1..])
  }

  /** `values.inject { |sum, element| sum + element }`: nil when there are no values. */
  function Inject(vs: seq<int>): (r: Option<int>)
    ensures r.Some? <==> vs != []
    ensures r.Some? ==> r.value == Total(vs)
  {
    if vs == [] then None else Some(SumFrom(vs[0], vs[1..]))
  }

  /** `values.max`: nil when there are no values. */
  function MaxOf(vs: seq<int>): (r: Option<int>)
    ensures r.Some? <==> vs != []
    ensures r.Some? ==> r.value in vs && forall i :: 0 <= i < |vs| ==> vs[i] <= r.value
  {
    if vs == [] then None
    else
      match MaxOf(vs[1..])
      case None => Some(vs[0])
      case Some(m) => Some(if vs[0] >= m then vs[0] else m)
  }

  /** `values.min`: nil when there are no values. */
  function MinOf(vs: seq<int>): (r: Option<int>)
    ensures r.Some? <==> vs != []
    ensures r.Some? ==> r.value in vs && forall i :: 0 <= i < |vs| ==> r.value <= vs[i]
  {
    if vs == [] then None
    else
      match MinOf(vs[1..])
      case None => Some(vs[0])
      case Some(m) => Some(if vs[0] <= m then vs[0] else m)
  }

  /** `aggregate_values`: the fold the metric's mode names, or an error for any other mode. */
  function AggregateValues(mode: Setting, values: seq<int>): (r: Result<Option<int>, StoreError>)
    ensures r.Failure? <==> mode !in AggregationModes
    ensures r.Failure? ==> r.error == InvalidAggregationMode
    ensures r.Success? ==> (r.value.Some? <==> values != [])
  {
    if mode == Sum then Success(Inject(values))
    else if mode == Max then Success(MaxOf(values))
    else if mode == Min then Success(MinOf(values))
    else Failure(InvalidAggregationMode)
  }

  /** The folded value of a non-empty group under a valid mode, with what each mode means. */
  function Fold(mode: Setting, vs: seq<int>): (r: int)
    requires mode in AggregationModes && vs != []
    ensures mode == Sum ==> r == Total(vs)
    ensures mode == Max ==> r in vs && forall i :: 0 <= i < |vs| ==> vs[i] <= r
    ensures mode == Min ==> r in vs && forall i :: 0 <= i < |vs| ==> r <= vs[i]
  {
    AggregateValues(mode, vs).value.value
  }

  lemma {:induction false} TotalAppend(a: seq<int>, b: seq<int>)
    ensures Total(a + b) == Total(a) + Total(b)
  {
    if a == [] {
      assert a + b == b;
    } else {
      assert (a + b)[0] == a[0];
      assert (a + b)[1..] == a[1..] + b;
      TotalAppend(a[1..], b);
    }
  }

  /** The total does not depend on the order of the values. */
  lemma {:induction false} TotalPermutation(a: seq<int>, b: seq<int>)
    requires multiset(a) == multiset(b)
    ensures Total(a) == Total(b)
    decreases |a|
  {
    if a != [] {
      var x := a[0];
      assert x in multiset(b);
      var i :| 0 <= i < |b| && b[i] == x;
      var rest := b[..i] + b[i + 1..];
      assert b == b[..i] + [x] + b[i + 1..];
      TotalAppend(b[..i] + [x], b[i + 1..]);
      TotalAppend(b[..i], [x]);
      TotalAppend(b[..i], b[i + 1..]);
      assert a == [x] + a[1..];
      assert multiset(b) == multiset(b[..i]) + multiset{x} + multiset(b[i + 1..]);
      assert multiset(a) == multiset{x} + multiset(a[1..]);
      assert multiset(rest) == multiset(b[..i]) + multiset(b[i + 1..]);
      assert multiset(a[1..]) == multiset(a) - multiset{x};
      assert multiset(rest) == multiset(b) - multiset{x};
      TotalPermutation(a[1..], rest);
    }
  }

  /**
   * The fold of a group does not depend on the order in which the files,
   * and so the values, were read.
   */
  lemma AggregatePermutation(mode: Setting, a: seq<int>, b: seq<int>)
    requires multiset(a) == multiset(b)
    ensures AggregateValues(mode, a) == AggregateValues(mode, b)
  {
    assert |a| == |multiset(a)| == |b|;
    if mode == Sum && a != [] {
      TotalPermutation(a, b);
    } else if (mode == Max || mode == Min) && a != [] {
      var ra := if mode == Max then MaxOf(a).value else MinOf(a).value;
      var rb := if mode == Max then MaxOf(b).value else MinOf(b).value;
      assert ra in multiset(b) && rb in multiset(a);
      var i :| 0 <= i < |b| && b[i] == ra;
      var j :| 0 <= j < |a| && a[j] == rb;
    }
  }

  // ---------------------------------------------------------------------------
  // Grouping by label set

  /**
   * One value read from a metric file, with the label set its key decodes to.
   * The grouping below only compares label sets, so it is stated for any key type.
   */
  datatype Observation<K> = Observation(labels: K, value: int)

  /** The values read for `ls`, in reading order: the reference for `stores_data[ls]`. */
  function Group<K(==)>(obs: seq<Observation<K>>, ls: K): (r: seq<int>)
    ensures |r| <= |obs|
  {
    if obs == [] then []
    else
      var o := obs[|obs| - 1];
      Group(obs[..|obs| - 1], ls) + (if o.labels == ls then [o.value] else [])
  }

  function LabelSets<K(==)>(obs: seq<Observation<K>>): set<K>
  {
    set i | 0 <= i < |obs| :: obs[i].labels
  }

  /** `stores_data` once every value is read: each label set seen, with its values. */
  function Groups<K(==)>(obs: seq<Observation<K>>): map<K, seq<int>>
  {
    map ls | ls in LabelSets(obs) :: Group(obs, ls)
  }

  /** `stores_data[label_set] << v`, on the hash whose default is a new empty array. */
  function AddValue<K(==)>(data: map<K, seq<int>>, o: Observation<K>): map<K, seq<int>>
  {
    data[o.labels := if o.labels in data then data[o.labels] + [o.value] else [o.value]]
  }

  /** `stores_data` after the values of `obs` were added one by one, in order. */
  function Collect<K(==)>(obs: seq<Observation<K>>): map<K, seq<int>>
  {
    if obs == [] then map[] else AddValue(Collect(obs[..|obs| - 1]), obs[|obs| - 1])
  }

  predicate NonEmptyGroups<K(==)>(groups: map<K, seq<int>>)
  {
    forall ls :: ls in groups ==> groups[ls] != []
  }

  lemma {:induction false} GroupOfUnseen<K>(obs: seq<Observation<K>>, ls: K)
    requires ls !in LabelSets(obs)
    ensures Group(obs, ls) == []
  {
    if obs != [] {
      var n := |obs| - 1;
      assert obs[n].labels in LabelSets(obs);
      assert LabelSets(obs[..n]) <= LabelSets(obs) by {
        forall l | l in LabelSets(obs[..n]) ensures l in LabelSets(obs) {
          var i :| 0 <= i < n && obs[..n][i].labels == l;
          assert obs[i].labels == l;
        }
      }
      GroupOfUnseen(obs[..n], ls);
    }
  }

  lemma LabelSetsAppend<K>(obs: seq<Observation<K>>, o: Observation<K>)
    ensures LabelSets(obs + [o]) == LabelSets(obs) + {o.labels}
  {
    var all := obs + [o];
    forall l | l in LabelSets(all) ensures l in LabelSets(obs) + {o.labels} {
      var i :| 0 <= i < |all| && all[i].labels == l;
      if i < |obs| {
        assert obs[i].labels == l;
      }
    }
    forall l | l in LabelSets(obs) ensures l in LabelSets(all) {
      var i :| 0 <= i < |obs| && obs[i].labels == l;
      assert all[i].labels == l;
    }
    assert all[|obs|].labels == o.labels;
  }

  /** Reading one more value updates the groups exactly as `stores_data[label_set] << v` does. */
  lemma GroupsAppend<K>(obs: seq<Observation<K>>, o: Observation<K>)
    ensures Groups(obs + [o]) == AddValue(Groups(obs), o)
  {
    var all := obs + [o];
    assert all[..|obs|] == obs;
    LabelSetsAppend(obs, o);
    if o.labels !in LabelSets(obs) {
      GroupOfUnseen(obs, o.labels);
    }
    var g := Groups(obs);
    var added := AddValue(g, o);
    forall ls | ls in LabelSets(all) ensures Group(all, ls) == added[ls] {
      if ls != o.labels {
        assert Group(all, ls) == Group(obs, ls);
      }
    }
  }

  /** Every label set that was read has at least one value. */
  lemma {:induction false} GroupsNonEmpty<K>(obs: seq<Observation<K>>)
    ensures NonEmptyGroups(Groups(obs))
    decreases |obs|
  {
    if obs != [] {
      var n := |obs| - 1;
      assert obs == obs[..n] + [obs[n]];
      GroupsNonEmpty(obs[..n]);
      GroupsAppend(obs[..n], obs[n]);
    }
  }

  /** With a valid mode, every label set among the values is exported. */
  lemma LabelsExported<K>(mode: Setting, obs: seq<Observation<K>>)
    requires mode in AggregationModes
    ensures NonEmptyGroups(Groups(obs))
    ensures Aggregated(mode, Groups(obs)).Success?
    ensures forall i :: 0 <= i < |obs| ==> obs[i].labels in Aggregated(mode, Groups(obs)).value
  {
    GroupsNonEmpty(obs);
    forall i | 0 <= i < |obs| ensures obs[i].labels in LabelSets(obs) {}
  }

  /** Adding the values one at a time builds exactly the grouping by label set. */
  lemma {:induction false} CollectIsGroups<K>(obs: seq<Observation<K>>)
    ensures Collect(obs) == Groups(obs)
    decreases |obs|
  {
    if obs == [] {
      assert LabelSets(obs) == {};
    } else {
      var n := |obs| - 1;
      assert obs == obs[..n] + [obs[n]];
      CollectIsGroups(obs[..n]);
      GroupsAppend(obs[..n], obs[n]);
    }
  }

  /** Adding one more value to the collected values. */
  lemma CollectAppend<K>(obs: seq<Observation<K>>, o: Observation<K>)
    ensures Collect(obs + [o]) == AddValue(Collect(obs), o)
  {
    assert (obs + [o])[..|obs|] == obs;
  }

  lemma CollectPrefix<K>(obs: seq<Observation<K>>, k: nat)
    requires k < |obs|
    ensures Collect(obs[..k + 1]) == AddValue(Collect(obs[..k]), obs[k])
  {
    assert obs[..k + 1][..k] == obs[..k];
  }

  /**
   * The `each_with_object` step of `all_values`: every group folded with the
   * mode; an invalid mode raises as soon as there is a group to fold.
   */
  function Aggregated<K(==)>(mode: Setting, groups: map<K, seq<int>>): (r: Result<map<K, int>, StoreError>)
    requires NonEmptyGroups(groups)
    ensures r.Failure? <==> groups != map[] && mode !in AggregationModes
    ensures r.Success? ==> r.value.Keys == groups.Keys
  {
    if groups == map[] then Success(map[])
    else if mode !in AggregationModes then Failure(InvalidAggregationMode)
    else Success(map ls | ls in groups :: Fold(mode, groups[ls]))
  }

  /** Each value of the group of `ls` counts one observation of `ls` with that value. */
  lemma {:induction false} GroupCounts<K>(obs: seq<Observation<K>>, ls: K, v: int)
    ensures multiset(Group(obs, ls))[v] == multiset(obs)[Observation(ls, v)]
    decreases |obs|
  {
    if obs != [] {
      var n := |obs| - 1;
      assert obs == obs[..n] + [obs[n]];
      GroupCounts(obs[..n], ls, v);
    }
  }

  /** Reordering the values read reorders each group's values. */
  lemma GroupPermutation<K>(obs: seq<Observation<K>>, obs': seq<Observation<K>>, ls: K)
    requires multiset(obs) == multiset(obs')
    ensures multiset(Group(obs, ls)) == multiset(Group(obs', ls))
  {
    forall v ensures multiset(Group(obs, ls))[v] == multiset(Group(obs', ls))[v] {
      GroupCounts(obs, ls, v);
      GroupCounts(obs', ls, v);
    }
  }

  lemma LabelSetsIncluded<K>(obs: seq<Observation<K>>, obs': seq<Observation<K>>)
    requires multiset(obs) <= multiset(obs')
    ensures LabelSets(obs) <= LabelSets(obs')
  {
    forall l | l in LabelSets(obs) ensures l in LabelSets(obs') {
      var i :| 0 <= i < |obs| && obs[i].labels == l;
      assert obs[i] in multiset(obs');
      var j :| 0 <= j < |obs'| && obs'[j] == obs[i];
    }
  }

  /**
   * The export does not depend on the order in which the values were read:
   * any reordering of the observations exports the same label sets with
   * the same folded values, or fails in the same way.
   */
  lemma ObservationPermutation<K>(mode: Setting, obs: seq<Observation<K>>, obs': seq<Observation<K>>)
    requires multiset(obs) == multiset(obs')
    ensures NonEmptyGroups(Groups(obs)) && NonEmptyGroups(Groups(obs'))
    ensures Aggregated(mode, Groups(obs)) == Aggregated(mode, Groups(obs'))
  {
    GroupsNonEmpty(obs);
    GroupsNonEmpty(obs');
    LabelSetsIncluded(obs, obs');
    LabelSetsIncluded(obs', obs);
    var g, g' := Groups(obs), Groups(obs');
    assert g.Keys == g'.Keys;
    if g != map[] && mode in AggregationModes {
      forall ls | ls in g ensures Fold(mode, g[ls]) == Fold(mode, g'[ls]) {
        GroupPermutation(obs, obs', ls);
        AggregatePermutation(mode, g[ls], g'[ls]);
      }
      var r := map ls | ls in g :: Fold(mode, g[ls]);
      var r' := map ls | ls in g' :: Fold(mode, g'[ls]);
      assert forall ls :: ls in r ==> r[ls] == r'[ls];
      assert r == r';
    }
  }

  /** The values two processes set for four label sets in the store's own examples. */
  function ExampleReads<K>(bar: K, baz: K, yyy: K, zzz: K): seq<Observation<K>>
  {
    [Observation(bar, 1), Observation(baz, 7), Observation(yyy, 3),
     Observation(bar, 3), Observation(baz, 2), Observation(zzz, 1)]
  }

  /** The groups of the example: two values for `bar` and `baz`, one for `yyy` and `zzz`. */
  lemma ExampleGroups<K>(bar: K, baz: K, yyy: K, zzz: K)
    requires bar != baz && bar != yyy && bar != zzz && baz != yyy && baz != zzz && yyy != zzz
    ensures Groups(ExampleReads(bar, baz, yyy, zzz)) == map[bar := [1, 3], baz := [7, 2], yyy := [3], zzz := [1]]
  {
    var obs := ExampleReads(bar, baz, yyy, zzz);
    ExampleFirstReads(bar, baz, yyy, zzz);
    CollectPrefix(obs, 3);
    assert [1] + [3] == [1, 3];
    assert Collect(obs[..4]) == map[bar := [1, 3], baz := [7], yyy := [3]];
    CollectPrefix(obs, 4);
    assert [7] + [2] == [7, 2];
    assert Collect(obs[..5]) == map[bar := [1, 3], baz := [7, 2], yyy := [3]];
    CollectPrefix(obs, 5);
    assert obs[..6] == obs;
    CollectIsGroups(obs);
  }

  /** The first three values of the example each start a group of their own. */
  lemma ExampleFirstReads<K>(bar: K, baz: K, yyy: K, zzz: K)
    requires bar != baz && bar != yyy && baz != yyy
    ensures Collect(ExampleReads(bar, baz, yyy, zzz)[..3]) == map[bar := [1], baz := [7], yyy := [3]]
  {
    var obs := ExampleReads(bar, baz, yyy, zzz);
    assert obs[..0] == [];
    CollectPrefix(obs, 0);
    assert Collect(obs[..1]) == map[bar := [1]];
    CollectPrefix(obs, 1);
    assert Collect(obs[..2]) == map[bar := [1], baz := [7]];
    CollectPrefix(obs, 2);
  }

  /** Folding each group of a map of groups known key by key. */
  lemma AggregatedFour<K>(mode: Setting, bar: K, baz: K, yyy: K, zzz: K, vs: seq<seq<int>>, rs: seq<int>)
    requires bar != baz && bar != yyy && bar != zzz && baz != yyy && baz != zzz && yyy != zzz
    requires mode in AggregationModes && |vs| == 4 && |rs| == 4
    requires forall i :: 0 <= i < 4 ==> vs[i] != [] && Fold(mode, vs[i]) == rs[i]
    ensures NonEmptyGroups(map[bar := vs[0], baz := vs[1], yyy := vs[2], zzz := vs[3]])
    ensures Aggregated(mode, map[bar := vs[0], baz := vs[1], yyy := vs[2], zzz := vs[3]])
      == Success(map[bar := rs[0], baz := rs[1], yyy := rs[2], zzz := rs[3]])
  {
    var g := map[bar := vs[0], baz := vs[1], yyy := vs[2], zzz := vs[3]];
    var r := map[bar := rs[0], baz := rs[1], yyy := rs[2], zzz := rs[3]];
    assert g[bar] == vs[0] && g[baz] == vs[1] && g[yyy] == vs[2] && g[zzz] == vs[3];
    assert bar in g;
    var folded := map ls | ls in g :: Fold(mode, g[ls]);
    assert folded.Keys == r.Keys;
    forall ls | ls in r ensures folded[ls] == r[ls] {
      if ls == zzz {
        assert Fold(mode, vs[3]) == rs[3];
      } else if ls == yyy {
        assert Fold(mode, vs[2]) == rs[2];
      } else if ls == baz {
        assert Fold(mode, vs[1]) == rs[1];
      } else {
        assert Fold(mode, vs[0]) == rs[0];
      }
    }
    assert folded == r;
  }

  /**
   * Those values group and fold to 4, 9, 3 and 1 under sum, to 3, 7, 3 and 1
   * under max and to 1, 2, 3 and 1 under min.
   */
  lemma TwoProcesses<K>(bar: K, baz: K, yyy: K, zzz: K)
    requires bar != baz && bar != yyy && bar != zzz && baz != yyy && baz != zzz && yyy != zzz
    ensures var g := Groups(ExampleReads(bar, baz, yyy, zzz));
      && NonEmptyGroups(g)
      && Aggregated(Sum, g) == Success(map[bar := 4, baz := 9, yyy := 3, zzz := 1])
      && Aggregated(Max, g) == Success(map[bar := 3, baz := 7, yyy := 3, zzz := 1])
      && Aggregated(Min, g) == Success(map[bar := 1, baz := 2, yyy := 3, zzz := 1])
  {
    ExampleGroups(bar, baz, yyy, zzz);
    var vs := [[1, 3], [7, 2], [3], [1]];
    assert Fold(Sum, vs[0]) == 4 && Fold(Sum, vs[1]) == 9 && Fold(Sum, vs[2]) == 3 && Fold(Sum, vs[3]) == 1;
    AggregatedFour(Sum, bar, baz, yyy, zzz, vs, [4, 9, 3, 1]);
    AggregatedFour(Max, bar, baz, yyy, zzz, vs, [3, 7, 3, 1]);
    AggregatedFour(Min, bar, baz, yyy, zzz, vs, [1, 2, 3, 1]);
  }
}
