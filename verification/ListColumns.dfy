/** Arrow list columns and the vectorised test for canonical key/value lists.

    All keys of a column lie in one flattened array.  Neighbouring keys are
    compared everywhere at once, and the comparisons that span two lists are
    then masked out at the list ends.
 */
module ListColumns {
  import opened Wrappers
  import opened TextOrder
  import opened Schema

  ghost predicate Offsets(offsets: seq<nat>)
  {
    |offsets| >= 1 && forall i, j :: 0 <= i <= j < |offsets| ==> offsets[i] <= offsets[j]
  }

  /** Keys `k` and `k + 1` of the flattened array lie in list `i`. */
  ghost predicate Neighbours(offsets: seq<nat>, i: nat, k: nat)
  {
    i + 1 < |offsets| && offsets[i] <= offsets[0] + k && offsets[0] + k + 1 < offsets[i + 1]
  }

  /** One of the first `n` offsets puts a list end at `position` of the flattened array. */
  ghost predicate ListEnd(offsets: seq<nat>, n: nat, position: nat)
    requires n <= |offsets|
  {
    exists i :: 1 <= i < n && offsets[i] == offsets[0] + position
  }

  /** Keys strictly increase inside every list. */
  ghost predicate IncreasingInLists(offsets: seq<nat>, keys: seq<string>)
  {
    forall i: nat, k: nat :: Neighbours(offsets, i, k) ==> k + 1 < |keys| && Less(keys[k], keys[k + 1])
  }

  /** The list in which a flattened position lies. */
  lemma {:induction false} ListOf(offsets: seq<nat>, k: nat, last: nat) returns (i: nat)
    requires Offsets(offsets) && last < |offsets| && offsets[0] + k < offsets[last]
    ensures i < last && offsets[i] <= offsets[0] + k < offsets[i + 1]
  {
    if offsets[last - 1] <= offsets[0] + k {
      i := last - 1;
    } else {
      i := ListOf(offsets, k, last - 1);
    }
  }

  /** Two neighbouring keys lie in one list exactly when no list ends between them. */
  lemma NeighboursExactlyWithoutEnd(offsets: seq<nat>, k: nat)
    requires Offsets(offsets) && offsets[0] + k + 1 < offsets[|offsets| - 1]
    ensures (exists i: nat :: Neighbours(offsets, i, k)) <==> !ListEnd(offsets, |offsets|, k + 1)
  {
    if !ListEnd(offsets, |offsets|, k + 1) {
      var i := ListOf(offsets, k, |offsets| - 1);
      assert offsets[i + 1] != offsets[0] + (k + 1);
      assert Neighbours(offsets, i, k);
    }
  }

  /** Accept the comparisons that span two lists. */
  method MaskListEnds(increasing: array<bool>, offsets: seq<nat>)
    requires Offsets(offsets)
    modifies increasing
    ensures forall k :: 0 <= k < increasing.Length ==>
              (increasing[k] <==> old(increasing[k]) || ListEnd(offsets, |offsets|, k + 1))
  {
    for i := 1 to |offsets|
      invariant forall k :: 0 <= k < increasing.Length ==>
                  (increasing[k] <==> old(increasing[k]) || ListEnd(offsets, i, k + 1))
    {
      var end := offsets[i] - offsets[0];
      if 0 < end <= increasing.Length {
        increasing[end - 1] := true;
      }
    }
  }

  /** Whether keys strictly increase inside every list, for any offsets of a sliced array. */
  method KeysStrictlyIncrease(offsets: seq<nat>, keys: seq<string>) returns (ok: bool)
    requires Offsets(offsets) && |keys| == offsets[|offsets| - 1] - offsets[0]
    ensures ok <==> IncreasingInLists(offsets, keys)
  {
    NeighboursAreKeys(offsets, keys);
    var size := |keys| - 1;
    if size < 1 {
      assert IncreasingInLists(offsets, keys);
      return true;
    }
    var increasing := CompareNeighbours(keys);
    MaskListEnds(increasing, offsets);
    ghost var mask := increasing[..];
    assert forall k :: 0 <= k < |mask| ==>
             (mask[k] <==> Less(keys[k], keys[k + 1]) || ListEnd(offsets, |offsets|, k + 1));
    ok := All(increasing);
    assert ok <==> forall k :: 0 <= k < |mask| ==> mask[k];
    MaskDecides(offsets, keys, mask);
  }

  method CompareNeighbours(keys: seq<string>) returns (increasing: array<bool>)
    requires |keys| >= 1
    ensures fresh(increasing) && increasing.Length == |keys| - 1
    ensures forall k :: 0 <= k < increasing.Length ==> (increasing[k] <==> Less(keys[k], keys[k + 1]))
  {
    increasing := new bool[|keys| - 1];
    for i := 0 to |keys| - 1
      invariant forall k :: 0 <= k < i ==> (increasing[k] <==> Less(keys[k], keys[k + 1]))
    {
      increasing[i] := Less(keys[i], keys[i + 1]);
    }
  }

  method All(mask: array<bool>) returns (all: bool)
    ensures all <==> forall k :: 0 <= k < mask.Length ==> mask[k]
  {
    all := true;
    for k := 0 to mask.Length
      invariant all <==> forall j :: 0 <= j < k ==> mask[j]
    {
      all := all && mask[k];
    }
  }

  lemma NeighboursAreKeys(offsets: seq<nat>, keys: seq<string>)
    requires Offsets(offsets) && |keys| == offsets[|offsets| - 1] - offsets[0]
    ensures forall i: nat, k: nat :: Neighbours(offsets, i, k) ==> k + 1 < |keys|
  {
    forall i: nat, k: nat | Neighbours(offsets, i, k)
      ensures k + 1 < |keys|
    {
      assert offsets[i + 1] <= offsets[|offsets| - 1];
    }
  }

  lemma MaskDecides(offsets: seq<nat>, keys: seq<string>, mask: seq<bool>)
    requires Offsets(offsets) && |keys| == offsets[|offsets| - 1] - offsets[0] && |mask| == |keys| - 1
    requires forall k :: 0 <= k < |mask| ==>
               (mask[k] <==> Less(keys[k], keys[k + 1]) || ListEnd(offsets, |offsets|, k + 1))
    ensures (forall k :: 0 <= k < |mask| ==> mask[k]) <==> IncreasingInLists(offsets, keys)
  {
    NeighboursAreKeys(offsets, keys);
    if forall k :: 0 <= k < |mask| ==> mask[k] {
      forall i: nat, k: nat | Neighbours(offsets, i, k)
        ensures k + 1 < |keys| && Less(keys[k], keys[k + 1])
      {
        NeighboursExactlyWithoutEnd(offsets, k);
        assert mask[k];
      }
    }
    if IncreasingInLists(offsets, keys) {
      forall k | 0 <= k < |mask|
        ensures mask[k]
      {
        NeighboursExactlyWithoutEnd(offsets, k);
        if i: nat :| Neighbours(offsets, i, k) {
          assert Less(keys[k], keys[k + 1]);
        }
      }
    }
  }

  /** A list column; `keyValue` says that its type is a list of string pairs. */
  datatype ListColumn = ListColumn(values: seq<RawPair>, offsets: seq<nat>, valid: seq<bool>, keyValue: bool)
  {
    /** What Arrow guarantees of every list array. */
    ghost predicate WellFormed()
    {
      Offsets(offsets) && |offsets| == |valid| + 1 && offsets[|valid|] <= |values|
    }

    function List(i: nat): seq<RawPair>
      requires WellFormed() && i < |valid|
    {
      values[offsets[i]..offsets[i + 1]]
    }

    /** The list as `to_pylist` gives it. */
    function At(i: nat): Option<seq<RawPair>>
      requires WellFormed() && i < |valid|
    {
      if valid[i] then Some(List(i)) else None
    }

    function Flattened(): seq<RawPair>
      requires WellFormed()
    {
      values[offsets[0]..offsets[|valid|]]
    }

    /** The column has the right type and storage would leave each of its lists unchanged. */
    ghost predicate Canonical()
      requires WellFormed()
    {
      keyValue && forall i :: 0 <= i < |valid| ==> valid[i] && CanonicalEntries(List(i))
    }
  }

  lemma FlattenedHasNulls(column: ListColumn)
    requires column.WellFormed()
    ensures NoNulls(column.Flattened()) <==> forall i :: 0 <= i < |column.valid| ==> NoNulls(column.List(i))
  {
    var offsets, n := column.offsets, |column.valid|;
    if NoNulls(column.Flattened()) {
      forall i, k | 0 <= i < n && 0 <= k < |column.List(i)|
        ensures column.List(i)[k].key.Some? && column.List(i)[k].value.Some?
      {
        assert column.Flattened()[offsets[i] - offsets[0] + k] == column.List(i)[k];
      }
    }
    if forall i :: 0 <= i < n ==> NoNulls(column.List(i)) {
      forall k | 0 <= k < |column.Flattened()|
        ensures column.Flattened()[k].key.Some? && column.Flattened()[k].value.Some?
      {
        var i := ListOf(offsets, k, n);
        assert column.List(i)[offsets[0] + k - offsets[i]] == column.Flattened()[k];
      }
    }
  }

  /** Increasing neighbours in the flattened keys are increasing neighbours in the lists. */
  lemma NeighboursAreInLists(column: ListColumn, keys: seq<string>)
    requires column.WellFormed() && NoNulls(column.Flattened())
    requires keys == Keys(Plain(column.Flattened()))
    ensures IncreasingInLists(column.offsets, keys)
       <==> forall i :: 0 <= i < |column.valid| ==> CanonicalEntries(column.List(i))
  {
    FlattenedHasNulls(column);
    if IncreasingInLists(column.offsets, keys) {
      forall i, k | 0 <= i < |column.valid| && 0 <= k < |column.List(i)| - 1
        ensures Less(column.List(i)[k].key.value, column.List(i)[k + 1].key.value)
      {
        var at := column.offsets[i] - column.offsets[0] + k;
        assert Neighbours(column.offsets, i, at);
        assert keys[at] == column.Flattened()[at].key.value && keys[at + 1] == column.Flattened()[at + 1].key.value;
        assert column.Flattened()[at] == column.List(i)[k] && column.Flattened()[at + 1] == column.List(i)[k + 1];
      }
    }
    if forall i :: 0 <= i < |column.valid| ==> CanonicalEntries(column.List(i)) {
      forall i: nat, k: nat | Neighbours(column.offsets, i, k)
        ensures k + 1 < |keys| && Less(keys[k], keys[k + 1])
      {
        NeighboursIncrease(column, keys, i, k);
      }
    }
  }

  lemma NeighboursIncrease(column: ListColumn, keys: seq<string>, i: nat, k: nat)
    requires column.WellFormed() && NoNulls(column.Flattened())
    requires keys == Keys(Plain(column.Flattened()))
    requires Neighbours(column.offsets, i, k) && CanonicalEntries(column.List(i))
    ensures k + 1 < |keys| && Less(keys[k], keys[k + 1])
  {
    assert column.offsets[i + 1] <= column.offsets[|column.valid|];
    var start := column.offsets[0] + k - column.offsets[i];
    assert column.List(i)[start] == column.Flattened()[k] && column.List(i)[start + 1] == column.Flattened()[k + 1];
  }

  /** Whether `MappingToPairs` would leave every list of the column unchanged. */
  method PairsAreCanonical(column: ListColumn) returns (ok: bool)
    requires column.WellFormed()
    ensures ok <==> column.Canonical()
  {
    if !column.keyValue || exists i :: 0 <= i < |column.valid| && !column.valid[i] {
      return false;
    }
    var entries := column.Flattened();
    FlattenedHasNulls(column);
    if !NoNulls(entries) {
      return false;
    }
    NeighboursAreInLists(column, Keys(Plain(entries)));
    ok := KeysStrictlyIncrease(column.offsets, Keys(Plain(entries)));
  }
}
