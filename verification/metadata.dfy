/** The metadata of a movie: a sorted map from keys to optional texts. A
    missing key is `None` (Java `null`); the stored value may itself be
    `None`, since the store keeps a `null` value under its key rather than
    dropping the entry. The store is immutable here: `Set` and `Remove`
    return the updated store, or the error the Java methods throw. */
module MetadataStore {
  import opened Wrappers
  import opened StringOrder

  datatype Metadata = Metadata(entries: map<string, Option<string>>)

  const Empty := Metadata(map[])

  /** The `IllegalArgumentException` of the mutators. */
  datatype MetadataError = IllegalArgument(message: string)

  const KeyRequired := "key is required"

  /** `get`: the value under `key`; empty for a missing key, for a key that
      holds `null`, and for a `null` key. */
  function Get(m: Metadata, key: Option<string>): (r: Option<string>)
    ensures key.None? ==> r.None?
    ensures r.Some? ==> key.Some? && key.value in m.entries && m.entries[key.value] == r
  {
    if key.Some? && key.value in m.entries then m.entries[key.value] else None
  }

  /** `set`: stores `value` (possibly `null`) under a non-null key. */
  function Set(m: Metadata, key: Option<string>, value: Option<string>): (r: Result<Metadata, MetadataError>)
    ensures r.Failure? <==> key.None?
    ensures r.Failure? ==> r.error == IllegalArgument(KeyRequired)
    ensures r.Success? ==> r.value.entries.Keys == m.entries.Keys + {key.value}
  {
    if key.None? then Failure(IllegalArgument(KeyRequired))
    else Success(Metadata(m.entries[key.value := value]))
  }

  /** `remove`: drops the entry of a non-null key, if there is one. */
  function Remove(m: Metadata, key: Option<string>): (r: Result<Metadata, MetadataError>)
    ensures r.Failure? <==> key.None?
    ensures r.Failure? ==> r.error == IllegalArgument(KeyRequired)
    ensures r.Success? ==> r.value.entries.Keys == m.entries.Keys - {key.value}
  {
    if key.None? then Failure(IllegalArgument(KeyRequired))
    else Success(Metadata(m.entries - {key.value}))
  }

  /** `getKeys`: the keys of all entries, ascending as the tree map orders
      them. */
  function Keys(m: Metadata): (ks: seq<string>)
    ensures StrictlySorted(ks)
    ensures forall k :: k in ks <==> k in m.entries
    ensures |ks| == |m.entries|
  {
    Sorted(m.entries.Keys)
  }

  // ------------------------------------------------------------ properties

  /** A `null` key is never found and never throws. */
  lemma GetNullKey(m: Metadata)
    ensures Get(m, None) == None
  {
  }

  /** Reading a key right after setting it gives back what was set: the
      text itself, or empty when `null` was set. */
  lemma GetAfterSet(m: Metadata, k: string, v: Option<string>)
    ensures Set(m, Some(k), v).Success?
    ensures Get(Set(m, Some(k), v).value, Some(k)) == v
  {
  }

  /** Setting a key leaves every other key's entry as it was. */
  lemma SetKeepsOthers(m: Metadata, k: string, v: Option<string>, j: string)
    requires j != k
    ensures Set(m, Some(k), v).Success?
    ensures j in Set(m, Some(k), v).value.entries <==> j in m.entries
    ensures Get(Set(m, Some(k), v).value, Some(j)) == Get(m, Some(j))
  {
  }

  /** Setting `null` keeps the key listed while reading it gives empty. */
  lemma SetNullKeepsKey(m: Metadata, k: string)
    ensures Set(m, Some(k), None).Success?
    ensures k in Keys(Set(m, Some(k), None).value)
    ensures Get(Set(m, Some(k), None).value, Some(k)) == None
  {
  }

  /** Setting the same value twice is setting it once. */
  lemma SetIdempotent(m: Metadata, k: string, v: Option<string>)
    ensures Set(m, Some(k), v).Success?
    ensures Set(Set(m, Some(k), v).value, Some(k), v) == Set(m, Some(k), v)
  {
    SetOverwrites(m, k, v, v);
  }

  /** The later of two sets of one key wins. */
  lemma SetOverwrites(m: Metadata, k: string, v: Option<string>, w: Option<string>)
    ensures Set(m, Some(k), v).Success?
    ensures Set(Set(m, Some(k), v).value, Some(k), w) == Set(m, Some(k), w)
  {
    assert m.entries[k := v][k := w] == m.entries[k := w];
  }

  /** After removing a key it is neither listed nor found. */
  lemma RemoveDeletes(m: Metadata, k: string)
    ensures Remove(m, Some(k)).Success?
    ensures k !in Keys(Remove(m, Some(k)).value)
    ensures Get(Remove(m, Some(k)).value, Some(k)) == None
  {
  }

  /** Removing a key leaves every other key's entry as it was. */
  lemma RemoveKeepsOthers(m: Metadata, k: string, j: string)
    requires j != k
    ensures Remove(m, Some(k)).Success?
    ensures j in Remove(m, Some(k)).value.entries <==> j in m.entries
    ensures Get(Remove(m, Some(k)).value, Some(j)) == Get(m, Some(j))
  {
  }

  /** Removing an absent key changes nothing. */
  lemma RemoveAbsent(m: Metadata, k: string)
    requires k !in m.entries
    ensures Remove(m, Some(k)) == Success(m)
  {
    assert m.entries - {k} == m.entries;
  }

  /** Removing a key that was just set restores a store without that key:
      in particular, setting then removing a key that was absent gives back
      the store unchanged. */
  lemma RemoveAfterSet(m: Metadata, k: string, v: Option<string>)
    ensures Set(m, Some(k), v).Success?
    ensures Remove(Set(m, Some(k), v).value, Some(k)) == Remove(m, Some(k))
    ensures k !in m.entries ==> Remove(Set(m, Some(k), v).value, Some(k)) == Success(m)
  {
    assert m.entries[k := v] - {k} == m.entries - {k};
    if k !in m.entries {
      RemoveAbsent(m, k);
    }
  }

  /** The key list after a set is the ascending list of the old keys with
      the new key added. */
  lemma KeysAfterSet(m: Metadata, k: string, v: Option<string>)
    ensures Set(m, Some(k), v).Success?
    ensures Keys(Set(m, Some(k), v).value) == Sorted(m.entries.Keys + {k})
  {
    var m' := Set(m, Some(k), v).value;
    assert m'.entries.Keys == m.entries.Keys + {k};
  }

  /** The key list is determined by its contents: any strictly ascending
      list of exactly the stored keys is the key list. */
  lemma KeysUnique(m: Metadata, ks: seq<string>)
    requires StrictlySorted(ks)
    requires forall k :: k in ks <==> k in m.entries
    ensures Keys(m) == ks
  {
    SortedIs(m.entries.Keys, ks);
  }

  /** Two keys are listed in tree-map order: the earlier one is the smaller
      by `String.compareTo`. */
  lemma KeysAscending(m: Metadata, i: nat, j: nat)
    requires i < j < |Keys(m)|
    ensures Less(Keys(m)[i], Keys(m)[j])
  {
  }

  /** A failed mutation has no effect: the error is returned instead of a
      store. */
  lemma NullKeyRejected(m: Metadata, v: Option<string>)
    ensures Set(m, None, v) == Failure(IllegalArgument("key is required"))
    ensures Remove(m, None) == Failure(IllegalArgument("key is required"))
  {
  }
}
