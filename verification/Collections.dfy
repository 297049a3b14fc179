/** Small notions the modules share. */
module Collections {

  /** A data pointer or function pointer of C. */
  type Pointer = nat
  const NULL: Pointer := 0

  datatype Option<T> = None | Some(value: T)

  function AsSeq<T>(o: Option<T>): seq<T> {
    if o.Some? then [o.value] else []
  }

  function Without<T>(s: seq<T>, k: nat): seq<T>
    requires k < |s|
  {
    s[..k] + s[k + 1..]
  }

  lemma WithoutAt<T>(s: seq<T>, k: nat)
    requires k < |s|
    ensures |Without(s, k)| == |s| - 1
    ensures forall i | 0 <= i < |s| - 1 :: Without(s, k)[i] == s[if i < k then i else i + 1]
  {
  }

  ghost predicate Distinct<T>(s: seq<T>) {
    forall i, j | 0 <= i < j < |s| :: s[i] != s[j]
  }

  lemma DistinctTail<T>(s: seq<T>)
    requires Distinct(s) && s != []
    ensures Distinct(s[1..]) && forall x :: x in s[1..] <==> x in s && x != s[0]
  {
    assert s == [s[0]] + s[1..];
  }

  lemma DistinctSnoc<T>(s: seq<T>, x: T)
    requires Distinct(s) && x !in s
    ensures Distinct(s + [x])
  {
  }

  // ---------------------------------------------------------------------------
  // Chains of a hash table
  // ---------------------------------------------------------------------------

  /** The keys of a chain are distinct, belong in its place, and together with their values
      are the entries of the map that do. */
  ghost predicate Represents<K(!new), V>(keys: seq<K>, values: seq<V>, here: nat, place: K -> nat,
                                         contents: map<K, V>)
  {
    && |keys| == |values| && Distinct(keys)
    && (forall i | 0 <= i < |keys| :: place(keys[i]) == here && keys[i] in contents && contents[keys[i]] == values[i])
    && (forall k | k in contents && place(k) == here :: k in keys)
  }

  lemma AddEntry<K(!new), V>(keys: seq<K>, values: seq<V>, place: K -> nat, contents: map<K, V>, key: K, v: V)
    requires Represents(keys, values, place(key), place, contents) && key !in contents
    ensures Represents([key] + keys, [v] + values, place(key), place, contents[key := v])
  {
    assert key !in keys;
  }

  lemma ReplaceEntry<K(!new), V>(keys: seq<K>, values: seq<V>, here: nat, place: K -> nat, contents: map<K, V>,
                                 k: nat, v: V)
    requires Represents(keys, values, here, place, contents) && k < |keys|
    ensures Represents(keys, values[k := v], here, place, contents[keys[k] := v])
  {
  }

  lemma DropEntry<K(!new), V>(keys: seq<K>, values: seq<V>, here: nat, place: K -> nat, contents: map<K, V>, k: nat)
    requires Represents(keys, values, here, place, contents) && k < |keys|
    ensures Represents(Without(keys, k), Without(values, k), here, place, contents - {keys[k]})
  {
    WithoutAt(keys, k);
    WithoutAt(values, k);
    forall x | x in keys && x != keys[k] ensures x in Without(keys, k) {
      var i :| 0 <= i < |keys| && keys[i] == x;
      assert Without(keys, k)[if i < k then i else i - 1] == x;
    }
  }

  /** An entry with another place is nothing to the chain. */
  lemma OtherEntry<K(!new), V>(keys: seq<K>, values: seq<V>, here: nat, place: K -> nat, contents: map<K, V>,
                               contents': map<K, V>, key: K)
    requires Represents(keys, values, here, place, contents) && place(key) != here
    requires forall k | k != key :: k in contents <==> k in contents'
    requires forall k | k != key && k in contents :: contents[k] == contents'[k]
    ensures Represents(keys, values, here, place, contents')
  {
  }
}
