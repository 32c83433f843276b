/** Sorting distinct strings by code point. */
module SortedText {
  import opened TextOrder

  predicate IsLeast(names: set<string>, least: string)
  {
    least in names && forall name | name in names :: name == least || Less(least, name)
  }

  lemma {:induction false} LeastExists(names: set<string>) returns (least: string)
    requires names != {}
    ensures IsLeast(names, least)
  {
    var some :| some in names;
    if names == {some} {
      least := some;
    } else {
      var other := LeastExists(names - {some});
      LessTotal(some, other);
      least := if Less(some, other) then some else other;
      forall name | name in names
        ensures name == least || Less(least, name)
      {
        if least == some && name != some && name != other {
          LessTransitive(some, other, name);
        }
      }
    }
  }

  lemma LeastIsDefined(names: set<string>)
    requires names != {}
    ensures exists least :: least in names && IsLeast(names, least)
    ensures forall a, b :: IsLeast(names, a) && IsLeast(names, b) ==> a == b
  {
    var least := LeastExists(names);
    forall a, b | IsLeast(names, a) && IsLeast(names, b)
      ensures a == b
    {
      LessTotal(a, b);
    }
  }

  function Least(names: set<string>): (least: string)
    requires names != {}
    ensures IsLeast(names, least)
  {
    LeastIsDefined(names);
    var least :| least in names && IsLeast(names, least);
    least
  }

  /** Distinct strings in sorted order. */
  function Sorted(names: set<string>): (sorted: seq<string>)
    ensures forall name :: name in sorted <==> name in names
    ensures forall i, j :: 0 <= i < j < |sorted| ==> sorted[i] != sorted[j]
    decreases |names|
  {
    if names == {} then [] else
      var least := Least(names);
      [least] + Sorted(names - {least})
  }

  lemma {:induction false} SortedCount(names: set<string>)
    ensures |Sorted(names)| == |names|
    decreases |names|
  {
    if names != {} {
      SortedCount(names - {Least(names)});
    }
  }

  /** The strings increase strictly. */
  predicate Increasing(texts: seq<string>)
  {
    forall i | 0 <= i < |texts| - 1 :: Less(texts[i], texts[i + 1])
  }

  lemma {:induction false} IncreasingOverall(texts: seq<string>, i: nat, j: nat)
    requires Increasing(texts) && i < j < |texts|
    ensures Less(texts[i], texts[j])
  {
    if i + 1 < j {
      IncreasingOverall(texts, i, j - 1);
      LessTransitive(texts[i], texts[j - 1], texts[j]);
    }
  }

  lemma {:induction false} SortedIncreases(texts: set<string>)
    ensures Increasing(Sorted(texts))
    decreases |texts|
  {
    if texts != {} {
      var least := Least(texts);
      var rest := Sorted(texts - {least});
      SortedIncreases(texts - {least});
      if rest != [] {
        assert rest[0] in texts - {least};
      }
    }
  }

  lemma FirstIsLeast(texts: seq<string>)
    requires Increasing(texts) && texts != []
    ensures IsLeast((set text | text in texts), texts[0]) && texts[0] !in texts[1..]
  {
    forall i | 0 < i < |texts|
      ensures Less(texts[0], texts[i]) && texts[i] != texts[0]
    {
      IncreasingOverall(texts, 0, i);
      LessIrreflexive(texts[0]);
    }
  }

  /** There is only one way to list the same strings in increasing order. */
  lemma {:induction false} IncreasingIsSorted(texts: seq<string>)
    requires Increasing(texts)
    ensures texts == Sorted(set text | text in texts)
    decreases |texts|
  {
    var all := set text | text in texts;
    if texts != [] {
      var first, rest := texts[0], texts[1..];
      IncreasingIsSorted(rest);
      FirstIsLeast(texts);
      LeastIsDefined(all);
      assert Least(all) == first;
      assert all - {first} == set text | text in rest;
      assert texts == [first] + rest;
    } else {
      assert all == {};
    }
  }
}
