/**
 * The central-hash reference store: every metric of the process writes
 * into one shared hash, keyed by the metric's labels merged with the
 * metric's name under the extra key `"__metric_name"`.
 */
module CentralHash {
  import opened Wrappers
  import opened StoreSettings

  /** A label set, as the hash `{ route: "/", code: "200" }` it is. */
  type Labels = map<Atom, Atom>

  /** The string key `"__metric_name"` under which the metric's name is kept. */
  const MetricNameKey: Atom := Str("__metric_name")

  /** `store_key`: the labels merged with `{ "__metric_name" => name }`. */
  function StoreKey(name: Atom, labels: Labels): (k: Labels)
    ensures MetricNameKey in k && k[MetricNameKey] == name
    ensures k.Keys == labels.Keys + {MetricNameKey}
    ensures forall a :: a in labels && a != MetricNameKey ==> k[a] == labels[a]
  {
    labels + map[MetricNameKey := name]
  }

  /** A key of the shared hash belongs to the metric `name`. */
  predicate Owned(k: Labels, name: Atom) {
    MetricNameKey in k && k[MetricNameKey] == name
  }

  /** `labels.reject { |k, _| k == "__metric_name" }`. */
  function Strip(k: Labels): (ls: Labels)
    ensures MetricNameKey !in ls
    ensures ls.Keys == k.Keys - {MetricNameKey}
  {
    k - {MetricNameKey}
  }

  /** Stripping the name from a key of the metric and merging it back gives the key. */
  lemma StoreKeyOfStrip(k: Labels, name: Atom)
    requires Owned(k, name)
    ensures StoreKey(name, Strip(k)) == k
  {
  }

  /** Merging in the name and stripping it again gives back labels without the name key. */
  lemma StripOfStoreKey(name: Atom, labels: Labels)
    requires MetricNameKey !in labels
    ensures Strip(StoreKey(name, labels)) == labels
  {
  }

  /** Keys of two different metrics never coincide, whatever their labels. */
  lemma StoreKeysOfOtherMetrics(name: Atom, other: Atom, labels: Labels, others: Labels)
    requires name != other
    ensures StoreKey(name, labels) != StoreKey(other, others)
  {
    assert StoreKey(name, labels)[MetricNameKey] != StoreKey(other, others)[MetricNameKey];
  }

  /** Label sets without the name key that give the same key are the same. */
  lemma StoreKeyInjective(name: Atom, labels: Labels, others: Labels)
    requires MetricNameKey !in labels && MetricNameKey !in others
    requires StoreKey(name, labels) == StoreKey(name, others)
    ensures labels == others
  {
    StripOfStoreKey(name, labels);
    StripOfStoreKey(name, others);
  }

  /**
   * What `all_values` returns for metric `name` from a copy `m` of the
   * shared hash: exactly the label sets `ls` without the name key whose
   * merged key is stored, each with the stored value.
   */
  function View(m: map<Labels, real>, name: Atom): (v: map<Labels, real>)
    ensures forall ls :: ls in v <==> MetricNameKey !in ls && StoreKey(name, ls) in m
    ensures forall ls :: ls in v ==> v[ls] == m[StoreKey(name, ls)]
  {
    var owned := set k | k in m && Owned(k, name) :: Strip(k);
    assert forall ls :: ls in owned ==> StoreKey(name, ls) in m by {
      forall ls | ls in owned ensures StoreKey(name, ls) in m {
        var k :| k in m && Owned(k, name) && Strip(k) == ls;
        StoreKeyOfStrip(k, name);
      }
    }
    assert forall ls :: MetricNameKey !in ls && StoreKey(name, ls) in m ==> ls in owned by {
      forall ls | MetricNameKey !in ls && StoreKey(name, ls) in m ensures ls in owned {
        StripOfStoreKey(name, ls);
      }
    }
    map ls | ls in owned :: m[StoreKey(name, ls)]
  }

  /**
   * Storing `v` under key `k` changes the view of metric `name` only when
   * `k` is that metric's, and then only at `k`'s stripped labels.
   */
  lemma ViewUpdate(m: map<Labels, real>, k: Labels, v: real, name: Atom)
    ensures View(m[k := v], name) == if Owned(k, name) then View(m, name)[Strip(k) := v] else View(m, name)
  {
    if Owned(k, name) {
      UpdateOwned(m, k, v, name);
    } else {
      UpdateNotOwned(m, k, v, name);
    }
  }

  lemma UpdateOwned(m: map<Labels, real>, k: Labels, v: real, name: Atom)
    requires Owned(k, name)
    ensures View(m[k := v], name) == View(m, name)[Strip(k) := v]
  {
    var lhs := View(m[k := v], name);
    var rhs := View(m, name)[Strip(k) := v];
    StoreKeyOfStrip(k, name);
    forall ls | MetricNameKey !in ls && ls != Strip(k)
      ensures StoreKey(name, ls) != k
    {
      StripOfStoreKey(name, ls);
    }
    assert forall ls :: ls in lhs <==> ls in rhs;
    assert forall ls :: ls in lhs ==> lhs[ls] == rhs[ls];
    MapExtensionality(lhs, rhs);
  }

  lemma UpdateNotOwned(m: map<Labels, real>, k: Labels, v: real, name: Atom)
    requires !Owned(k, name)
    ensures View(m[k := v], name) == View(m, name)
  {
    var lhs := View(m[k := v], name);
    var rhs := View(m, name);
    assert forall ls :: StoreKey(name, ls) != k;
    assert forall ls :: ls in lhs <==> ls in rhs;
    assert forall ls :: ls in lhs ==> lhs[ls] == rhs[ls];
    MapExtensionality(lhs, rhs);
  }

  /** The view of a hash nobody has written is empty. */
  lemma EmptyView(name: Atom)
    ensures View(map[], name) == map[]
  {
  }

  /**
   * Writing `v` for `labels` through the metric store of `name` makes the
   * view show `v` at exactly those labels, and nothing else changes.
   */
  lemma SetThenView(m: map<Labels, real>, name: Atom, labels: Labels, v: real)
    requires MetricNameKey !in labels
    ensures View(m[StoreKey(name, labels) := v], name) == View(m, name)[labels := v]
  {
    ViewUpdate(m, StoreKey(name, labels), v, name);
    StripOfStoreKey(name, labels);
  }

  /**
   * Writes through the metric store of `name` change neither the values
   * read nor the view of another metric sharing the hash.
   */
  lemma OtherMetricUnchanged(m: map<Labels, real>, name: Atom, labels: Labels, v: real, other: Atom, others: Labels)
    requires name != other
    ensures View(m[StoreKey(name, labels) := v], other) == View(m, other)
    ensures Lookup(m[StoreKey(name, labels) := v], StoreKey(other, others)) == Lookup(m, StoreKey(other, others))
  {
    ViewUpdate(m, StoreKey(name, labels), v, other);
    StoreKeysOfOtherMetrics(name, other, labels, others);
  }

  /** `hash[key]` on the hash whose default block is `hash[key] = 0.0`: the stored value or 0.0. */
  function Lookup(m: map<Labels, real>, k: Labels): real
  {
    if k in m then m[k] else 0.0
  }

  /**
   * Reading unseen labels leaves them stored with 0.0: afterwards they
   * are among the metric's values.
   */
  lemma ReadAppearsInView(m: map<Labels, real>, name: Atom, labels: Labels)
    requires MetricNameKey !in labels
    requires StoreKey(name, labels) !in m
    ensures var k := StoreKey(name, labels);
      View(m[k := Lookup(m, k)], name) == View(m, name)[labels := 0.0]
  {
    SetThenView(m, name, labels, 0.0);
  }

  /** Storing the value already stored changes nothing: a read of a known key writes nothing. */
  lemma ReadOfKnownKey(m: map<Labels, real>, k: Labels)
    requires k in m
    ensures m[k := Lookup(m, k)] == m
  {
  }

  /** `validate_metric_settings`: this store takes no settings at all. */
  function ValidateMetricSettings(settings: Settings): Result<(), StoreError>
  {
    if |settings| != 0 then Failure(NoSettingsAllowed) else Success(())
  }

  /** Maps with the same keys and the same value at each key are equal. */
  lemma MapExtensionality<K, V>(a: map<K, V>, b: map<K, V>)
    requires forall k :: k in a <==> k in b
    requires forall k :: k in a ==> a[k] == b[k]
    ensures a == b
  {
  }

  lemma RemoveOne<K, V>(m: map<K, V>, rest: set<K>, k: K)
    requires k in rest && k in m
    ensures m - (rest - {k}) == (m - rest)[k := m[k]]
  {
  }

  /** The shared hash of every metric of the process. */
  class CentralHashExample {
    var internal: map<Labels, real>

    constructor ()
      ensures internal == map[]
    {
      internal := map[];
    }

    /**
     * `for_metric`: a metric store writing into this hash; any setting is
     * refused.
     */
    method ForMetric(name: Atom, settings: Settings := map[]) returns (r: Result<MetricStore, StoreError>)
      ensures r.Failure? <==> settings != map[]
      ensures r.Failure? ==> r.error == NoSettingsAllowed
      ensures r.Success? ==> fresh(r.value) && r.value.store == this && r.value.metricName == name
    {
      var valid := ValidateMetricSettings(settings);
      if valid.Failure? {
        return Failure(valid.error);
      }
      var s := new MetricStore(this, name);
      return Success(s);
    }
  }

  /** One metric's access to the shared hash. */
  class MetricStore {
    const store: CentralHashExample
    const metricName: Atom

    constructor (store: CentralHashExample, metricName: Atom)
      ensures this.store == store && this.metricName == metricName
    {
      this.store := store;
      this.metricName := metricName;
    }

    /** `set`: the value is stored under the labels' key; nothing else changes. */
    method Set(labels: Labels, val: real)
      modifies store
      ensures store.internal == old(store.internal)[StoreKey(metricName, labels) := val]
    {
      store.internal := store.internal[StoreKey(metricName, labels) := val];
    }

    /** `increment`: the current value, 0.0 when unseen, plus `delta`. */
    method Increment(labels: Labels, delta: real := 1.0)
      modifies store
      ensures var k := StoreKey(metricName, labels);
        store.internal == old(store.internal)[k := Lookup(old(store.internal), k) + delta]
    {
      var k := StoreKey(metricName, labels);
      var current := if k in store.internal then store.internal[k] else 0.0;
      store.internal := store.internal[k := current];
      store.internal := store.internal[k := store.internal[k] + delta];
    }

    /**
     * `get`: the value stored for the labels, 0.0 when unseen; an unseen
     * key is stored with that 0.0 by the hash's default block.
     */
    method Get(labels: Labels) returns (v: real)
      modifies store
      ensures var k := StoreKey(metricName, labels);
        v == Lookup(old(store.internal), k) && store.internal == old(store.internal)[k := v]
    {
      var k := StoreKey(metricName, labels);
      if k !in store.internal {
        store.internal := store.internal[k := 0.0];
      }
      v := store.internal[k];
    }

    /**
     * `all_values`: from a copy of the hash, every entry of this metric,
     * with the name key stripped from its labels; the hash is not changed.
     */
    method AllValues() returns (r: map<Labels, real>)
      ensures r == View(store.internal, metricName)
    {
      var copy := store.internal;
      var rest := copy.Keys;
      r := map[];
      EmptyView(metricName);
      assert copy - rest == map[];
      while rest != {}
        invariant rest <= copy.Keys
        invariant r == View(copy - rest, metricName)
        decreases |rest|
      {
        var k :| k in rest;
        RemoveOne(copy, rest, k);
        ViewUpdate(copy - rest, k, copy[k], metricName);
        if Owned(k, metricName) {
          r := r[Strip(k) := copy[k]];
        }
        rest := rest - {k};
      }
      assert copy - rest == copy;
    }
  }
}
