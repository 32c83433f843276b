/** Rejection counters: a map from reason to count, and its total. */
module Counts {

  /** The sum of all counters, starting with any key. */
  ghost function SumOf(counts: map<string, nat>): nat
  {
    if counts == map[] then 0
    else
      var key :| key in counts;
      counts[key] + SumOf(counts - {key})
  }

  /** A sum may start with any key. */
  lemma {:induction false} SumFrom(counts: map<string, nat>, key: string)
    requires key in counts
    ensures SumOf(counts) == counts[key] + SumOf(counts - {key})
    decreases |counts|
  {
    var picked :| picked in counts && SumOf(counts) == counts[picked] + SumOf(counts - {picked});
    if picked != key {
      SumFrom(counts - {picked}, key);
      SumFrom(counts - {key}, picked);
      assert counts - {picked} - {key} == counts - {key} - {picked};
    }
  }

  /** The counter of a reason, which is zero when it is missing. */
  function CountOf(counts: map<string, nat>, reason: string): nat
  {
    if reason in counts then counts[reason] else 0
  }

  /** The counters with `reason` raised by `amount`. */
  function Raised(counts: map<string, nat>, reason: string, amount: nat): map<string, nat>
  {
    counts[reason := CountOf(counts, reason) + amount]
  }

  /** Raising one counter raises the total by as much. */
  lemma RaisedSum(counts: map<string, nat>, reason: string, amount: nat)
    ensures SumOf(Raised(counts, reason, amount)) == SumOf(counts) + amount
  {
    var raised := Raised(counts, reason, amount);
    SumFrom(raised, reason);
    assert raised - {reason} == counts - {reason};
    if reason in counts {
      SumFrom(counts, reason);
    } else {
      assert counts - {reason} == counts;
    }
  }

  /** The counters with `amount` items filed under `reason`; nothing is filed when there are none. */
  function Filed(counts: map<string, nat>, reason: string, amount: nat): map<string, nat>
  {
    if amount == 0 then counts else Raised(counts, reason, amount)
  }

  /** Filing moves no other counter. */
  lemma FiledCounts(counts: map<string, nat>, reason: string, amount: nat, other: string)
    ensures CountOf(Filed(counts, reason, amount), other)
         == CountOf(counts, other) + if other == reason then amount else 0
  {
  }

  lemma FiledSum(counts: map<string, nat>, reason: string, amount: nat)
    ensures SumOf(Filed(counts, reason, amount)) == SumOf(counts) + amount
  {
    if amount > 0 {
      RaisedSum(counts, reason, amount);
    }
  }

  /** Filing twice under one reason is filing once. */
  lemma FiledTwice(counts: map<string, nat>, reason: string, a: nat, b: nat)
    ensures Filed(Filed(counts, reason, a), reason, b) == Filed(counts, reason, a + b)
  {
    assert Raised(Raised(counts, reason, a), reason, b) == Raised(counts, reason, a + b);
  }
}
