/** Key/value columns: nullable entries on the way in, sorted distinct pairs in storage. */
module Schema {
  import opened Wrappers
  import opened TextOrder
  import opened SortedText

  /** One entry of a list column as Arrow hands it out. */
  datatype RawPair = RawPair(key: Option<string>, value: Option<string>)

  datatype Pair = Pair(key: string, value: string)

  /** The dict built from the entries: null keys and values are skipped, a later entry wins. */
  function Items(entries: seq<RawPair>): map<string, string>
  {
    if entries == [] then map[]
    else
      var last := entries[|entries| - 1];
      var before := Items(entries[..|entries| - 1]);
      if last.key.None? || last.value.None? then before else before[last.key.value := last.value.value]
  }

  method SequenceItems(entries: seq<RawPair>) returns (converted: map<string, string>)
    ensures converted == Items(entries)
  {
    converted := map[];
    for i := 0 to |entries|
      invariant converted == Items(entries[..i])
    {
      assert entries[..i + 1][..i] == entries[..i];
      var entry := entries[i];
      if entry.key.Some? && entry.value.Some? {
        converted := converted[entry.key.value := entry.value.value];
      }
    }
    assert entries[..|entries|] == entries;
  }

  /** Deterministic key/value records: one for each key, sorted by key. */
  function PairsOf(items: map<string, string>): seq<Pair>
  {
    var keys := Sorted(items.Keys);
    seq(|keys|, i requires 0 <= i < |keys| => Pair(keys[i], items[keys[i]]))
  }

  function MappingToPairs(value: Option<seq<RawPair>>): seq<Pair>
  {
    if value.None? then [] else PairsOf(Items(value.value))
  }

  function Keys(pairs: seq<Pair>): seq<string>
  {
    seq(|pairs|, i requires 0 <= i < |pairs| => pairs[i].key)
  }

  predicate NoNulls(entries: seq<RawPair>)
  {
    forall i | 0 <= i < |entries| :: entries[i].key.Some? && entries[i].value.Some?
  }

  /** No null key or value, and keys strictly increase. */
  predicate CanonicalEntries(entries: seq<RawPair>)
  {
    && NoNulls(entries)
    && forall i | 0 <= i < |entries| - 1 :: Less(entries[i].key.value, entries[i + 1].key.value)
  }

  /** The entries read as pairs, which needs them to be free of nulls. */
  function Plain(entries: seq<RawPair>): seq<Pair>
    requires NoNulls(entries)
  {
    seq(|entries|, i requires 0 <= i < |entries| => Pair(entries[i].key.value, entries[i].value.value))
  }

  lemma PairsIncrease(items: map<string, string>)
    ensures Increasing(Keys(PairsOf(items)))
  {
    SortedIncreases(items.Keys);
    assert Keys(PairsOf(items)) == Sorted(items.Keys);
  }

  /** The entry has both a key and a value. */
  predicate Usable(entry: RawPair)
  {
    entry.key.Some? && entry.value.Some?
  }

  /** The value stands at the last usable entry of the key. */
  ghost predicate LastOf(entries: seq<RawPair>, key: string, value: string)
  {
    exists i :: 0 <= i < |entries| && entries[i] == RawPair(Some(key), Some(value))
                && forall j :: i < j < |entries| && Usable(entries[j]) ==> entries[j].key.value != key
  }

  lemma {:induction false} ItemsMeaning(entries: seq<RawPair>, key: string, value: string)
    ensures key in Items(entries) && Items(entries)[key] == value <==> LastOf(entries, key, value)
  {
    if entries != [] {
      var n := |entries| - 1;
      var before, last := entries[..n], entries[n];
      ItemsMeaning(before, key, value);
      if Usable(last) && last.key.value == key {
        if LastOf(entries, key, value) {
          var i :| 0 <= i < |entries| && entries[i] == RawPair(Some(key), Some(value))
                   && forall j :: i < j < |entries| && Usable(entries[j]) ==> entries[j].key.value != key;
          assert i == n;
        }
      } else {
        LastOfBefore(entries, key, value);
      }
    }
  }

  lemma LastOfBefore(entries: seq<RawPair>, key: string, value: string)
    requires entries != [] && !(Usable(entries[|entries| - 1]) && entries[|entries| - 1].key.value == key)
    ensures LastOf(entries, key, value) <==> LastOf(entries[..|entries| - 1], key, value)
  {
    var n := |entries| - 1;
    var before := entries[..n];
    if LastOf(before, key, value) {
      var i :| 0 <= i < n && before[i] == RawPair(Some(key), Some(value))
               && forall j :: i < j < n && Usable(before[j]) ==> before[j].key.value != key;
      assert entries[i] == before[i] && forall j :: i < j < n ==> before[j] == entries[j];
    }
    if LastOf(entries, key, value) {
      var i :| 0 <= i < |entries| && entries[i] == RawPair(Some(key), Some(value))
               && forall j :: i < j < |entries| && Usable(entries[j]) ==> entries[j].key.value != key;
      assert i < n && before[i] == entries[i] && forall j :: i < j < n ==> before[j] == entries[j];
    }
  }

  /** A stored list has exactly one pair for each key with a usable entry, with the value of the last
      one, and its keys increase strictly. */
  lemma StoredPairsMeaning(entries: seq<RawPair>, key: string, value: string)
    ensures Pair(key, value) in MappingToPairs(Some(entries)) <==> LastOf(entries, key, value)
    ensures Increasing(Keys(MappingToPairs(Some(entries)))) && MappingToPairs(None) == []
  {
    var items := Items(entries);
    ItemsMeaning(entries, key, value);
    PairsIncrease(items);
    var pairs, keys := PairsOf(items), Sorted(items.Keys);
    if key in items {
      var i :| 0 <= i < |keys| && keys[i] == key;
      assert pairs[i] == Pair(key, items[key]);
    }
  }

  /** Distinct keys keep all their entries. */
  lemma {:induction false} ItemsOfDistinct(entries: seq<RawPair>)
    requires CanonicalEntries(entries)
    ensures Items(entries).Keys == set pair | pair in Plain(entries) :: pair.key
    ensures forall i :: 0 <= i < |entries| ==>
              entries[i].key.value in Items(entries) && Items(entries)[entries[i].key.value] == entries[i].value.value
  {
    if entries != [] {
      var n := |entries| - 1;
      var before, last := entries[..n], entries[n];
      ItemsOfDistinct(before);
      assert Plain(entries) == Plain(before) + [Pair(last.key.value, last.value.value)];
      forall i | 0 <= i < n
        ensures entries[i].key.value != last.key.value
      {
        assert Increasing(Keys(Plain(entries)));
        IncreasingOverall(Keys(Plain(entries)), i, n);
        LessIrreflexive(last.key.value);
      }
      forall i | 0 <= i < |entries|
        ensures entries[i].key.value in Items(entries) && Items(entries)[entries[i].key.value] == entries[i].value.value
      {
        if i < n {
          assert before[i] == entries[i];
        }
      }
    }
  }

  lemma KeysOfPlain(entries: seq<RawPair>)
    requires CanonicalEntries(entries)
    ensures (set key | key in Keys(Plain(entries))) == Items(entries).Keys
  {
    var plain := Plain(entries);
    ItemsOfDistinct(entries);
    forall key
      ensures key in Keys(plain) <==> key in Items(entries).Keys
    {
      if key in Keys(plain) {
        var i :| 0 <= i < |plain| && Keys(plain)[i] == key;
        assert plain[i] in plain;
      }
      if pair :| pair in plain && pair.key == key {
        var i :| 0 <= i < |plain| && plain[i] == pair;
        assert Keys(plain)[i] == key;
      }
    }
  }

  lemma CanonicalIsUnchanged(entries: seq<RawPair>)
    requires CanonicalEntries(entries)
    ensures MappingToPairs(Some(entries)) == Plain(entries)
  {
    var plain := Plain(entries);
    ItemsOfDistinct(entries);
    assert Increasing(Keys(plain));
    IncreasingIsSorted(Keys(plain));
    KeysOfPlain(entries);
  }

  lemma UnchangedIsCanonical(entries: seq<RawPair>)
    requires NoNulls(entries) && MappingToPairs(Some(entries)) == Plain(entries)
    ensures CanonicalEntries(entries)
  {
    PairsIncrease(Items(entries));
    var keys := Keys(Plain(entries));
    forall i | 0 <= i < |entries| - 1
      ensures Less(entries[i].key.value, entries[i + 1].key.value)
    {
      assert Less(keys[i], keys[i + 1]);
    }
  }

  /** Storage leaves a list unchanged exactly when it has no nulls and strictly increasing keys. */
  lemma CanonicalExactlyWhenUnchanged(entries: seq<RawPair>)
    ensures CanonicalEntries(entries) <==> NoNulls(entries) && MappingToPairs(Some(entries)) == Plain(entries)
  {
    if CanonicalEntries(entries) {
      CanonicalIsUnchanged(entries);
    } else if NoNulls(entries) && MappingToPairs(Some(entries)) == Plain(entries) {
      UnchangedIsCanonical(entries);
    }
  }
}
