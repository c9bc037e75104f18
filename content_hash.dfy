/**
 * `HashMap<String, String>.hashCode()`: the 32-bit wrap-around sum, over
 * the entries, of `key.hashCode() ^ value.hashCode()`.
 *
 * `MapHash` defines the sum on the map value itself, so it cannot depend
 * on iteration order; `HashCode` is the loop Java runs over the entry set,
 * visiting the entries in an order this model leaves unspecified.
 */
module ContentHash {
  import opened JavaInt

  /** `Map.Entry.hashCode()` for a non-null key and value. */
  function EntryHash(k: string, v: string): Word
  {
    Xor(StringHash(k), StringHash(v))
  }

  /** The sum of the entry hashes of m, taken in whichever order the choice below picks. */
  ghost function MapHash(m: map<string, string>): Word
    decreases |m|
  {
    if m == map[] then 0
    else
      var k :| k in m;
      Add(EntryHash(k, m[k]), MapHash(m - {k}))
  }

  lemma AddSwap(a: Word, b: Word, c: Word)
    ensures Add(a, Add(b, c)) == Add(b, Add(a, c))
  {
  }

  lemma AddAssociative(a: Word, b: Word, c: Word)
    ensures Add(Add(a, b), c) == Add(a, Add(b, c))
  {
  }

  /** The sum does not depend on which entry is taken first: any entry can be split off. */
  lemma {:induction false} MapHashRemove(m: map<string, string>, k: string)
    requires k in m
    ensures MapHash(m) == Add(EntryHash(k, m[k]), MapHash(m - {k}))
    decreases |m|
  {
    var j :| j in m && MapHash(m) == Add(EntryHash(j, m[j]), MapHash(m - {j}));
    if j != k {
      var rest := m - {j} - {k};
      assert m - {j} - {k} == m - {k} - {j};
      MapHashRemove(m - {j}, k);
      MapHashRemove(m - {k}, j);
      AddSwap(EntryHash(j, m[j]), EntryHash(k, m[k]), MapHash(rest));
    }
  }

  /** A map with one entry hashes to that entry's hash. */
  lemma MapHashSingleton(k: string, v: string)
    ensures MapHash(map[k := v]) == EntryHash(k, v)
  {
    MapHashRemove(map[k := v], k);
    assert map[k := v] - {k} == map[];
  }

  /** `AbstractMap.hashCode()`: iterate over the entries and add up their hashes. */
  method HashCode(m: map<string, string>) returns (h: Word)
    ensures h == MapHash(m)
  {
    h := 0;
    var rest := m;
    while rest != map[]
      invariant Add(h, MapHash(rest)) == MapHash(m)
      decreases |rest|
    {
      assert rest.Keys != {};
      var k :| k in rest;
      var entry := EntryHash(k, rest[k]);
      MapHashRemove(rest, k);
      AddAssociative(h, entry, MapHash(rest - {k}));
      h := Add(h, entry);
      rest := rest - {k};
    }
  }

  /** A one-entry map whose hash is -2^31 as a Java int. */
  lemma WitnessHash()
    ensures MapHash(map["key" := "accdsahv"]) == 0x8000_0000
  {
    MapHashSingleton("key", "accdsahv");
    JavaInt.KeyHash();
    JavaInt.ValueHash();
    assert JavaInt.Xor(106079, 0x80019E5F) == 0x8000_0000;
  }
}
