/** The deterministic choice of one canonical row for each OSM identity.

    The policy is stated three times in the program: as a Python key for `min`,
    as a SQL ORDER BY with a row number, and as a single query that computes
    the plain and the text-filtered choice in one pass.  All three are related
    to one definition on sets of rows, `Canonical`.
 */
module CanonicalRows {
  import opened Wrappers
  import opened TextOrder
  import TextPolicy

  datatype Identity = Identity(osmType: string, osmId: int)

  /** The columns that are neither identity nor rank: the text and everything else. */
  datatype Payload = Payload(text: TextPolicy.Text, rest: string)

  datatype Row = Row(id: Identity, version: Option<int>, timestamp: Option<int>, source: string, payload: Payload)

  /** The digest of the payload columns, taken to be collision free.  The Python key and the ORDER BY
      clause spell it differently, so each has its own. */
  type Fingerprint = Payload -> string

  ghost predicate Injective(fp: Fingerprint)
  {
    forall p, q :: fp(p) == fp(q) ==> p == q
  }

  /* ------------------------------------------------------- the Python order */

  /** Minus the timestamp rank; a missing timestamp ranks at minus infinity. */
  datatype NegatedRank = Finite(value: int) | Infinity

  datatype Key = Key(
    versionMissing: bool, negatedVersion: int, negatedRank: NegatedRank, source: string, digest: string)

  function CanonicalRowOrder(fp: Fingerprint, row: Row): Key
  {
    Key(row.version.None?,
        if row.version.None? then 1 else -row.version.value,
        if row.timestamp.None? then Infinity else Finite(-row.timestamp.value),
        row.source,
        fp(row.payload))
  }

  predicate RankLess(a: NegatedRank, b: NegatedRank)
  {
    a.Finite? && (b.Infinity? || a.value < b.value)
  }

  /** Tuples compare column by column, and false comes before true. */
  predicate KeyLess(a: Key, b: Key)
  {
    if a.versionMissing != b.versionMissing then b.versionMissing
    else if a.negatedVersion != b.negatedVersion then a.negatedVersion < b.negatedVersion
    else if a.negatedRank != b.negatedRank then RankLess(a.negatedRank, b.negatedRank)
    else if a.source != b.source then Less(a.source, b.source)
    else Less(a.digest, b.digest)
  }

  /* ---------------------------------------------------------- the SQL order */

  datatype Comparison = First | Same | Second

  /** `column DESC NULLS LAST` */
  function DescendingNullsLast(a: Option<int>, b: Option<int>): Comparison
  {
    match (a, b)
    case (None, None) => Same
    case (None, Some(_)) => Second
    case (Some(_), None) => First
    case (Some(x), Some(y)) => if x > y then First else if x == y then Same else Second
  }

  /** `column ASC` on a column that is never null. */
  function Ascending(a: string, b: string): Comparison
  {
    if Less(a, b) then First else if a == b then Same else Second
  }

  function Then(first: Comparison, second: Comparison): Comparison
  {
    if first == Same then second else first
  }

  /** The ranking by version, timestamp and source. */
  function CompareRanks(a: Row, b: Row): Comparison
  {
    Then(DescendingNullsLast(a.version, b.version),
    Then(DescendingNullsLast(a.timestamp, b.timestamp),
         Ascending(a.source, b.source)))
  }

  function CompareSql(fp: Fingerprint, a: Row, b: Row): Comparison
  {
    Then(CompareRanks(a, b), Ascending(fp(a.payload), fp(b.payload)))
  }

  /** `a` is ranked strictly before `b`. */
  predicate Before(fp: Fingerprint, a: Row, b: Row)
  {
    CompareSql(fp, a, b) == First
  }

  /** There is a value, and it is greater than the other or the other is missing. */
  predicate Above(a: Option<int>, b: Option<int>)
  {
    a.Some? && (b.None? || a.value > b.value)
  }

  /** The higher version wins, then the later timestamp, a missing one losing, then the lesser source and digest. */
  lemma RankingMeaning(fp: Fingerprint, a: Row, b: Row)
    ensures Before(fp, a, b) <==>
              || Above(a.version, b.version)
              || (a.version == b.version && Above(a.timestamp, b.timestamp))
              || (a.version == b.version && a.timestamp == b.timestamp && Less(a.source, b.source))
              || (a.version == b.version && a.timestamp == b.timestamp && a.source == b.source
                  && Less(fp(a.payload), fp(b.payload)))
  {
    LessIrreflexive(a.source);
  }

  /** The two digests order these payloads alike. */
  predicate SameOrder(sql: Fingerprint, python: Fingerprint, p: Payload, q: Payload)
  {
    Less(sql(p), sql(q)) <==> Less(python(p), python(q))
  }

  /** The ORDER BY clause and the key tuple rank two rows alike exactly when version, timestamp and
      source tell them apart or the two digests order their payloads alike. */
  lemma SqlOrderIsPythonOrder(sql: Fingerprint, python: Fingerprint, a: Row, b: Row)
    ensures (Before(sql, a, b) <==> KeyLess(CanonicalRowOrder(python, a), CanonicalRowOrder(python, b)))
       <==> (CompareRanks(a, b) != Same || SameOrder(sql, python, a.payload, b.payload))
    ensures CompareRanks(a, b) == Same <==> a.version == b.version && a.timestamp == b.timestamp && a.source == b.source
  {
    LessIrreflexive(a.source);
    LessIrreflexive(sql(a.payload));
    LessIrreflexive(python(a.payload));
  }

  lemma RanksAreOpposite(a: Row, b: Row)
    ensures CompareRanks(a, b) == First <==> CompareRanks(b, a) == Second
  {
    LessTotal(a.source, b.source);
    LessIrreflexive(a.source);
  }

  lemma RanksAreTransitive(a: Row, b: Row, c: Row)
    requires CompareRanks(a, b) == First && CompareRanks(b, c) != Second
    ensures CompareRanks(a, c) == First
  {
    if Less(a.source, b.source) && Less(b.source, c.source) {
      LessTransitive(a.source, b.source, c.source);
    }
  }

  lemma BeforeIsStrictOrder(fp: Fingerprint, a: Row, b: Row, c: Row)
    ensures !Before(fp, a, a)
    ensures Before(fp, a, b) && Before(fp, b, c) ==> Before(fp, a, c)
    ensures !(Before(fp, a, b) && Before(fp, b, a))
  {
    RanksAreOpposite(a, a);
    RanksAreOpposite(a, b);
    LessIrreflexive(fp(a.payload));
    LessTotal(fp(a.payload), fp(b.payload));
    if Before(fp, a, b) && Before(fp, b, c) {
      if CompareRanks(a, b) == First {
        RanksAreTransitive(a, b, c);
      } else if CompareRanks(b, c) == Same {
        LessTransitive(fp(a.payload), fp(b.payload), fp(c.payload));
      }
    }
  }

  /** Rows of one identity that are not ranked apart are the same row. */
  lemma UnrankedRowsAreEqual(fp: Fingerprint, a: Row, b: Row)
    requires Injective(fp) && a.id == b.id
    requires !Before(fp, a, b) && !Before(fp, b, a)
    ensures a == b
  {
    LessTotal(a.source, b.source);
    LessTotal(fp(a.payload), fp(b.payload));
  }

  /* ------------------------------------------------------ the policy on sets */

  predicate Eligible(row: Row, requireText: bool)
  {
    requireText ==> TextPolicy.HasSuccessfulText(row.payload.text)
  }

  /** `row` is eligible and no eligible row of its identity is ranked before it. */
  predicate IsWinner(fp: Fingerprint, rows: set<Row>, requireText: bool, row: Row)
  {
    && row in rows
    && Eligible(row, requireText)
    && forall other | other in rows && Eligible(other, requireText) && other.id == row.id :: !Before(fp, other, row)
  }

  function Canonical(fp: Fingerprint, rows: set<Row>, requireText: bool): set<Row>
  {
    set row | row in rows && IsWinner(fp, rows, requireText, row)
  }

  lemma WinnersAreUnique(fp: Fingerprint, rows: set<Row>, requireText: bool, a: Row, b: Row)
    requires Injective(fp)
    requires a in Canonical(fp, rows, requireText) && b in Canonical(fp, rows, requireText) && a.id == b.id
    ensures a == b
  {
    UnrankedRowsAreEqual(fp, a, b);
  }

  /** Every eligible row has a winner of its identity that it is not ranked before. */
  lemma {:induction false} WinnerExists(fp: Fingerprint, rows: set<Row>, requireText: bool, row: Row)
    returns (winner: Row)
    requires row in rows && Eligible(row, requireText)
    ensures winner in Canonical(fp, rows, requireText) && winner.id == row.id
    ensures winner == row || Before(fp, winner, row)
    decreases |set other | other in rows && Before(fp, other, row)|
  {
    if IsWinner(fp, rows, requireText, row) {
      winner := row;
    } else {
      var better :| better in rows && Eligible(better, requireText) && better.id == row.id && Before(fp, better, row);
      var above := set other | other in rows && Before(fp, other, row);
      var aboveBetter := set other | other in rows && Before(fp, other, better);
      forall other | other in rows
        ensures Before(fp, other, better) ==> Before(fp, other, row)
      {
        BeforeIsStrictOrder(fp, other, better, row);
      }
      BeforeIsStrictOrder(fp, better, better, row);
      assert aboveBetter <= above - {better};
      SubsetIsSmaller(aboveBetter, above - {better});
      winner := WinnerExists(fp, rows, requireText, better);
      BeforeIsStrictOrder(fp, winner, better, row);
    }
  }

  lemma {:induction false} SubsetIsSmaller<T>(a: set<T>, b: set<T>)
    requires a <= b
    ensures |a| <= |b|
  {
    assert b == a + (b - a);
  }

  /** One canonical row for each identity that has an eligible row, and no others. */
  lemma CanonicalCoversIdentities(fp: Fingerprint, rows: set<Row>, requireText: bool, id: Identity)
    requires Injective(fp)
    ensures (exists row :: row in rows && Eligible(row, requireText) && row.id == id)
       <==> (exists winner :: winner in Canonical(fp, rows, requireText) && winner.id == id)
    ensures forall a, b :: a in Canonical(fp, rows, requireText) && b in Canonical(fp, rows, requireText) ==>
              a.id == b.id ==> a == b
  {
    if row :| row in rows && Eligible(row, requireText) && row.id == id {
      var winner := WinnerExists(fp, rows, requireText, row);
    }
    forall a, b | a in Canonical(fp, rows, requireText) && b in Canonical(fp, rows, requireText) && a.id == b.id
      ensures a == b
    {
      WinnersAreUnique(fp, rows, requireText, a, b);
    }
  }

  /** The choice over two collections is the choice among their choices. */
  lemma CanonicalDecomposes(fp: Fingerprint, a: set<Row>, b: set<Row>, requireText: bool)
    ensures Canonical(fp, a + b, requireText)
         == Canonical(fp, Canonical(fp, a, requireText) + Canonical(fp, b, requireText), requireText)
  {
    var winners := Canonical(fp, a, requireText) + Canonical(fp, b, requireText);
    forall row | row in winners && IsWinner(fp, winners, requireText, row)
      ensures IsWinner(fp, a + b, requireText, row)
    {
      forall other | other in a + b && Eligible(other, requireText) && other.id == row.id
        ensures !Before(fp, other, row)
      {
        var best := WinnerExists(fp, if other in a then a else b, requireText, other);
        assert best in winners && !Before(fp, best, row);
        BeforeIsStrictOrder(fp, best, other, row);
      }
    }
    forall row | row in a + b && IsWinner(fp, a + b, requireText, row)
      ensures row in winners
    {
      assert IsWinner(fp, if row in a then a else b, requireText, row);
    }
  }

  /** Deduplicating deduplicated rows drops nothing. */
  lemma CanonicalIdempotent(fp: Fingerprint, rows: set<Row>, requireText: bool)
    ensures Canonical(fp, Canonical(fp, rows, requireText), requireText) == Canonical(fp, rows, requireText)
  {
    CanonicalDecomposes(fp, rows, {}, requireText);
    assert Canonical(fp, {}, requireText) == {};
    assert rows + {} == rows;
    assert Canonical(fp, rows, requireText) + {} == Canonical(fp, rows, requireText);
  }

  /* ------------------------------------------------------ one policy, two digests */

  /** No eligible row of its identity has a better version, timestamp or source. */
  predicate BestRanked(rows: set<Row>, requireText: bool, row: Row)
  {
    && row in rows && Eligible(row, requireText)
    && forall other | other in rows && Eligible(other, requireText) && other.id == row.id ::
         CompareRanks(other, row) != First
  }

  /** Another eligible row of the identity ties with a best-ranked one. */
  predicate Tie(rows: set<Row>, requireText: bool, row: Row, other: Row)
  {
    && BestRanked(rows, requireText, row) && other in rows && Eligible(other, requireText)
    && other.id == row.id && other != row && CompareRanks(row, other) == Same
  }

  ghost predicate HasTie(rows: set<Row>, requireText: bool)
  {
    exists row, other :: Tie(rows, requireText, row, other)
  }

  /** All digests choose the rows that this one does. */
  ghost predicate AnyDigestAgrees(fp: Fingerprint, rows: set<Row>, requireText: bool)
  {
    forall other: Fingerprint | Injective(other) ::
      Canonical(other, rows, requireText) == Canonical(fp, rows, requireText)
  }

  lemma WinnerWithoutTie(fp: Fingerprint, other: Fingerprint, rows: set<Row>, requireText: bool, row: Row)
    requires !HasTie(rows, requireText) && row in Canonical(fp, rows, requireText)
    ensures row in Canonical(other, rows, requireText)
  {
    assert BestRanked(rows, requireText, row);
    forall rival | rival in rows && Eligible(rival, requireText) && rival.id == row.id
      ensures !Before(other, rival, row)
    {
      assert !Tie(rows, requireText, row, rival);
      RanksAreOpposite(rival, row);
      BeforeIsStrictOrder(other, row, row, row);
    }
  }

  /** The digest with the values of two payloads exchanged. */
  function Exchanged(fp: Fingerprint, p: Payload, q: Payload): Fingerprint
  {
    x => if x == p then fp(q) else if x == q then fp(p) else fp(x)
  }

  /** With their digests exchanged the winner of a tie loses it. */
  lemma ExchangedDigestDisagrees(fp: Fingerprint, rows: set<Row>, requireText: bool, row: Row, other: Row)
    requires Injective(fp) && Tie(rows, requireText, row, other)
    ensures !AnyDigestAgrees(fp, rows, requireText)
  {
    var winner := WinnerExists(fp, rows, requireText, row);
    var loser := if winner == row then other else row;
    RanksAreOpposite(winner, row);
    RanksAreOpposite(row, other);
    assert CompareRanks(loser, winner) == Same;
    SqlOrderIsPythonOrder(fp, fp, loser, winner);
    LessTotal(fp(loser.payload), fp(winner.payload));
    var exchanged := Exchanged(fp, winner.payload, loser.payload);
    assert Injective(exchanged);
    assert Before(exchanged, loser, winner);
    assert winner !in Canonical(exchanged, rows, requireText);
  }

  /** The Python policy and the query, each with its own digest, are sure to choose the same rows if
      and only if no best-ranked row ties with another of its identity. */
  lemma DigestsAgreeExactlyWithoutTies(fp: Fingerprint, rows: set<Row>, requireText: bool)
    requires Injective(fp)
    ensures AnyDigestAgrees(fp, rows, requireText) <==> !HasTie(rows, requireText)
  {
    if !HasTie(rows, requireText) {
      forall other: Fingerprint, row | Injective(other)
        ensures row in Canonical(fp, rows, requireText) <==> row in Canonical(other, rows, requireText)
      {
        if row in Canonical(fp, rows, requireText) {
          WinnerWithoutTie(fp, other, rows, requireText, row);
        }
        if row in Canonical(other, rows, requireText) {
          WinnerWithoutTie(other, fp, rows, requireText, row);
        }
      }
    } else {
      var row, other :| Tie(rows, requireText, row, other);
      ExchangedDigestDisagrees(fp, rows, requireText, row, other);
    }
  }

  function RowsOf(rows: seq<Row>): set<Row>
  {
    set row | row in rows
  }

  /* ------------------------------------------------ the Python selection */

  function EligibleRows(rows: seq<Row>, requireText: bool): seq<Row>
  {
    if rows == [] then []
    else (if Eligible(rows[0], requireText) then [rows[0]] else []) + EligibleRows(rows[1..], requireText)
  }

  /** `min` keeps the first of equal keys. */
  function FirstMinimum(fp: Fingerprint, candidates: seq<Row>): Row
    requires candidates != []
  {
    if |candidates| == 1 then candidates[0]
    else
      var rest := FirstMinimum(fp, candidates[1..]);
      if KeyLess(CanonicalRowOrder(fp, rest), CanonicalRowOrder(fp, candidates[0])) then rest else candidates[0]
  }

  datatype SelectionError = EmptyGroup

  function SelectCanonicalRow(fp: Fingerprint, rows: seq<Row>, requireText: bool): Result<Row, SelectionError>
  {
    var candidates := EligibleRows(rows, requireText);
    if candidates == [] then Err(EmptyGroup) else Ok(FirstMinimum(fp, candidates))
  }

  lemma {:induction false} EligibleRowsMeaning(rows: seq<Row>, requireText: bool)
    ensures forall row :: row in EligibleRows(rows, requireText) <==> row in rows && Eligible(row, requireText)
  {
    if rows != [] {
      EligibleRowsMeaning(rows[1..], requireText);
      assert forall row :: row in rows <==> row == rows[0] || row in rows[1..];
    }
  }

  lemma {:induction false} FirstMinimumMeaning(fp: Fingerprint, candidates: seq<Row>)
    requires candidates != []
    ensures FirstMinimum(fp, candidates) in candidates
    ensures forall row :: row in candidates ==> !Before(fp, row, FirstMinimum(fp, candidates))
  {
    var first, best := candidates[0], FirstMinimum(fp, candidates);
    if |candidates| == 1 {
      BeforeIsStrictOrder(fp, first, first, first);
      assert candidates == [first];
    } else {
      var rest := FirstMinimum(fp, candidates[1..]);
      FirstMinimumMeaning(fp, candidates[1..]);
      SqlOrderIsPythonOrder(fp, fp, rest, first);
      forall row | row in candidates
        ensures !Before(fp, row, best)
      {
        if row == first {
          BeforeIsStrictOrder(fp, first, rest, first);
        } else {
          assert row in candidates[1..];
          NotBeforeTransitive(fp, row, rest, best);
        }
      }
    }
  }

  /** The negation of `Before` is transitive, because rows are totally ranked by their keys. */
  lemma NotBeforeTransitive(fp: Fingerprint, a: Row, b: Row, c: Row)
    requires !Before(fp, a, b) && !Before(fp, b, c)
    ensures !Before(fp, a, c)
  {
    BeforeIsStrictOrder(fp, a, c, b);
    BeforeIsStrictOrder(fp, b, a, c);
    LessTotal(b.source, c.source);
    LessTotal(fp(b.payload), fp(c.payload));
    LessTotal(a.source, b.source);
    LessTotal(fp(a.payload), fp(b.payload));
    if Less(b.source, a.source) && Less(c.source, b.source) {
      LessTransitive(c.source, b.source, a.source);
    }
    if Less(fp(b.payload), fp(a.payload)) && Less(fp(c.payload), fp(b.payload)) {
      LessTransitive(fp(c.payload), fp(b.payload), fp(a.payload));
    }
    LessTotal(a.source, c.source);
    LessTotal(fp(a.payload), fp(c.payload));
  }

  /** The Python selection over one identity group is the policy, whatever the order of the rows. */
  lemma SelectionIsCanonical(fp: Fingerprint, rows: seq<Row>, requireText: bool)
    requires Injective(fp)
    requires forall i, j :: 0 <= i < j < |rows| ==> rows[i].id == rows[j].id
    ensures Canonical(fp, RowsOf(rows), requireText)
         == match SelectCanonicalRow(fp, rows, requireText) case Ok(row) => {row} case Err(_) => {}
  {
    var group := RowsOf(rows);
    EligibleRowsMeaning(rows, requireText);
    var candidates := EligibleRows(rows, requireText);
    if candidates != [] {
      var best := FirstMinimum(fp, candidates);
      FirstMinimumMeaning(fp, candidates);
      assert IsWinner(fp, group, requireText, best);
      forall row | row in Canonical(fp, group, requireText)
        ensures row == best
      {
        assert row.id == best.id;
        WinnersAreUnique(fp, group, requireText, row, best);
      }
    } else {
      forall row | row in rows
        ensures !Eligible(row, requireText)
      {
        assert row !in candidates;
      }
    }
  }

  /** Selection does not depend on the order or the repetition of the rows. */
  lemma SelectionIgnoresOrder(fp: Fingerprint, a: seq<Row>, b: seq<Row>, requireText: bool)
    requires Injective(fp)
    requires forall i, j :: 0 <= i < j < |a| ==> a[i].id == a[j].id
    requires forall row :: row in a <==> row in b
    ensures SelectCanonicalRow(fp, a, requireText) == SelectCanonicalRow(fp, b, requireText)
  {
    forall i, j | 0 <= i < j < |b|
      ensures b[i].id == b[j].id
    {
      assert b[i] in a && b[j] in a;
    }
    assert RowsOf(a) == RowsOf(b);
    SelectionIsCanonical(fp, a, requireText);
    SelectionIsCanonical(fp, b, requireText);
    var x, y := SelectCanonicalRow(fp, a, requireText), SelectCanonicalRow(fp, b, requireText);
    assert x.Ok? ==> x.value in Canonical(fp, RowsOf(a), requireText);
    assert y.Ok? ==> y.value in Canonical(fp, RowsOf(b), requireText);
  }

  /* ------------------------------------------------------------- the queries */

  /** `PARTITION BY osm_type, osm_id` or `PARTITION BY osm_type, osm_id, _text_ok`. */
  datatype Partition = Partition(id: Identity, textOk: bool)

  /** What ROW_NUMBER() promises: each partition is numbered from 1 without repetition and in
      the given order.  Rows that the order does not tell apart may be numbered either way. */
  ghost predicate IsRowNumber(fp: Fingerprint, relation: seq<Row>, partition: Row -> Partition, numbers: seq<nat>)
  {
    && |numbers| == |relation|
    && (forall i :: 0 <= i < |relation| ==> numbers[i] >= 1 && HasFirst(relation, partition, numbers, i))
    && (forall i, j ::
          0 <= i < |relation| && 0 <= j < |relation| && i != j && partition(relation[i]) == partition(relation[j]) ==>
          numbers[i] != numbers[j] && (Before(fp, relation[i], relation[j]) ==> numbers[i] < numbers[j]))
  }

  /** The partition of row `i` has a row with number 1. */
  ghost predicate HasFirst(relation: seq<Row>, partition: Row -> Partition, numbers: seq<nat>, i: nat)
    requires i < |relation| == |numbers|
  {
    exists j :: 0 <= j < |relation| && numbers[j] == 1 && partition(relation[j]) == partition(relation[i])
  }

  /** `WHERE <text filter>` keeps rows whose condition is true, not null. */
  ghost predicate TextFilter(row: Row)
  {
    TextPolicy.Eval(TextPolicy.SuccessfulTextSql(), row.payload.text, None) == TextPolicy.True
  }

  /** `COALESCE(<text filter>, FALSE)` */
  ghost function TextOk(row: Row): bool
  {
    var value := TextPolicy.Eval(TextPolicy.SuccessfulTextSql(), row.payload.text, None);
    if value == TextPolicy.Null then false else value == TextPolicy.True
  }

  ghost function Filtered(relation: seq<Row>, requireText: bool): seq<Row>
  {
    if relation == [] then []
    else (if requireText && !TextFilter(relation[0]) then [] else [relation[0]]) + Filtered(relation[1..], requireText)
  }

  function ById(row: Row): Partition
  {
    Partition(row.id, false)
  }

  ghost function ByIdAndText(row: Row): Partition
  {
    Partition(row.id, TextOk(row))
  }

  /** The rows of `canonical_rows_sql`, for one numbering that the engine may choose. */
  ghost function CanonicalQuery(relation: seq<Row>, requireText: bool, numbers: seq<nat>): set<Row>
    requires |numbers| == |Filtered(relation, requireText)|
  {
    var filtered := Filtered(relation, requireText);
    set i | 0 <= i < |filtered| && numbers[i] == 1 :: filtered[i]
  }

  /** No two of the returned rows have one identity. */
  ghost predicate ReturnsOncePerIdentity(relation: seq<Row>, requireText: bool, numbers: seq<nat>)
    requires |numbers| == |Filtered(relation, requireText)|
  {
    var filtered := Filtered(relation, requireText);
    forall i, j | 0 <= i < |filtered| && 0 <= j < |filtered| && numbers[i] == numbers[j] == 1 ::
      filtered[i].id == filtered[j].id ==> i == j
  }

  /** The rows of `canonical_rows_with_text_flag_sql` with their `_text_canonical` flag. */
  ghost function FlaggedQuery(relation: seq<Row>, ranks: seq<nat>, textRanks: seq<nat>): set<(Row, bool)>
    requires |ranks| == |textRanks| == |relation|
  {
    set i | 0 <= i < |relation| && (ranks[i] == 1 || (TextOk(relation[i]) && textRanks[i] == 1)) ::
      (relation[i], TextOk(relation[i]) && textRanks[i] == 1)
  }

  lemma TextOkIsEligible(row: Row)
    ensures TextOk(row) == TextFilter(row) == Eligible(row, true)
  {
    TextPolicy.SqlAgreesWithPython(row.payload.text, None);
  }

  lemma {:induction false} FilteredMeaning(relation: seq<Row>, requireText: bool)
    ensures forall row :: row in Filtered(relation, requireText) <==> row in relation && Eligible(row, requireText)
  {
    if relation != [] {
      FilteredMeaning(relation[1..], requireText);
      TextOkIsEligible(relation[0]);
      assert forall row :: row in relation <==> row == relation[0] || row in relation[1..];
    }
  }

  /** No row of the partition is ranked before `row`. */
  ghost predicate Unpreceded(fp: Fingerprint, relation: seq<Row>, partition: Row -> Partition, row: Row)
  {
    row in relation && forall other | other in relation && partition(other) == partition(row) :: !Before(fp, other, row)
  }

  lemma FirstIsUnpreceded(fp: Fingerprint, relation: seq<Row>, partition: Row -> Partition, numbers: seq<nat>, i: nat)
    requires IsRowNumber(fp, relation, partition, numbers) && i < |relation| && numbers[i] == 1
    ensures Unpreceded(fp, relation, partition, relation[i])
  {
    forall other | other in relation && partition(other) == partition(relation[i])
      ensures !Before(fp, other, relation[i])
    {
      var j :| 0 <= j < |relation| && relation[j] == other;
      BeforeIsStrictOrder(fp, other, other, other);
    }
  }

  /** Number 1 goes to a row that no row of its partition is ranked before, and equal rows
      share the fate of being somewhere numbered 1. */
  lemma FirstIsMinimal(fp: Fingerprint, relation: seq<Row>, partition: Row -> Partition, numbers: seq<nat>, row: Row)
    requires Injective(fp) && IsRowNumber(fp, relation, partition, numbers)
    requires forall r: Row :: partition(r).id == r.id
    ensures (exists i :: 0 <= i < |relation| && numbers[i] == 1 && relation[i] == row)
       <==> Unpreceded(fp, relation, partition, row)
  {
    if i :| 0 <= i < |relation| && numbers[i] == 1 && relation[i] == row {
      FirstIsUnpreceded(fp, relation, partition, numbers, i);
    }
    if Unpreceded(fp, relation, partition, row) {
      var k :| 0 <= k < |relation| && relation[k] == row;
      assert HasFirst(relation, partition, numbers, k);
      var i :| 0 <= i < |relation| && numbers[i] == 1 && partition(relation[i]) == partition(row);
      FirstIsUnpreceded(fp, relation, partition, numbers, i);
      assert partition(relation[i]).id == partition(row).id;
      UnrankedRowsAreEqual(fp, row, relation[i]);
    }
  }

  /** Whatever numbering the engine picks, each query returns the rows of the policy. */
  lemma QueryIsCanonical(fp: Fingerprint, relation: seq<Row>, requireText: bool, numbers: seq<nat>)
    requires Injective(fp)
    requires IsRowNumber(fp, Filtered(relation, requireText), ById, numbers)
    ensures CanonicalQuery(relation, requireText, numbers) == Canonical(fp, RowsOf(relation), requireText)
    ensures ReturnsOncePerIdentity(relation, requireText, numbers)
  {
    var filtered := Filtered(relation, requireText);
    var rows := RowsOf(relation);
    FilteredMeaning(relation, requireText);
    forall row: Row
      ensures row in CanonicalQuery(relation, requireText, numbers) <==> row in Canonical(fp, rows, requireText)
    {
      FirstIsMinimal(fp, filtered, ById, numbers, row);
    }
  }

  /** Some copy of `row` is numbered 1. */
  ghost predicate RankedFirst(relation: seq<Row>, numbers: seq<nat>, row: Row)
    requires |numbers| == |relation|
  {
    exists i :: 0 <= i < |relation| && numbers[i] == 1 && relation[i] == row
  }

  lemma PlainWindow(fp: Fingerprint, relation: seq<Row>, ranks: seq<nat>, row: Row)
    requires Injective(fp) && IsRowNumber(fp, relation, ById, ranks)
    ensures RankedFirst(relation, ranks, row) <==> row in Canonical(fp, RowsOf(relation), false)
  {
    FirstIsMinimal(fp, relation, ById, ranks, row);
  }

  lemma TextWindow(fp: Fingerprint, relation: seq<Row>, textRanks: seq<nat>, row: Row)
    requires Injective(fp) && IsRowNumber(fp, relation, ByIdAndText, textRanks)
    ensures TextOk(row) && RankedFirst(relation, textRanks, row) <==> row in Canonical(fp, RowsOf(relation), true)
  {
    FirstIsMinimal(fp, relation, ByIdAndText, textRanks, row);
    TextOkIsEligible(row);
    forall other: Row
      ensures TextOk(other) == Eligible(other, true)
    {
      TextOkIsEligible(other);
    }
  }

  ghost function AllRows(flagged: set<(Row, bool)>): set<Row>
  {
    set pair | pair in flagged :: pair.0
  }

  ghost function TextCanonicalRows(flagged: set<(Row, bool)>): set<Row>
  {
    set pair | pair in flagged && pair.1 :: pair.0
  }

  lemma FlaggedRows(relation: seq<Row>, ranks: seq<nat>, textRanks: seq<nat>, row: Row)
    requires |ranks| == |textRanks| == |relation|
    ensures var flagged := FlaggedQuery(relation, ranks, textRanks);
            && (row in TextCanonicalRows(flagged) <==> TextOk(row) && RankedFirst(relation, textRanks, row))
            && (row in AllRows(flagged) <==>
                  RankedFirst(relation, ranks, row) || (TextOk(row) && RankedFirst(relation, textRanks, row)))
  {
    var flagged := FlaggedQuery(relation, ranks, textRanks);
    if TextOk(row) && RankedFirst(relation, textRanks, row) {
      assert (row, true) in flagged;
    }
    if RankedFirst(relation, ranks, row) {
      assert (row, true) in flagged || (row, false) in flagged;
    }
  }

  /** The single pass returns row `i`. */
  ghost predicate Returned(relation: seq<Row>, ranks: seq<nat>, textRanks: seq<nat>, i: nat)
    requires |ranks| == |textRanks| == |relation|
  {
    i < |relation| && (ranks[i] == 1 || FlaggedAt(relation, textRanks, i))
  }

  ghost predicate FlaggedAt(relation: seq<Row>, textRanks: seq<nat>, i: nat)
    requires |textRanks| == |relation| && i < |relation|
  {
    TextOk(relation[i]) && textRanks[i] == 1
  }

  /** No two of the returned rows have one identity and one flag, so no identity comes back three times. */
  ghost predicate ReturnsOncePerFlag(relation: seq<Row>, ranks: seq<nat>, textRanks: seq<nat>)
    requires |ranks| == |textRanks| == |relation|
  {
    forall i: nat, j: nat | Returned(relation, ranks, textRanks, i) && Returned(relation, ranks, textRanks, j) ::
      relation[i].id == relation[j].id && FlaggedAt(relation, textRanks, i) == FlaggedAt(relation, textRanks, j) ==>
        i == j
  }

  /** The single pass returns the plain canonical rows and the text canonical rows, and flags
      exactly the latter, whatever numberings the engine picks for the windows. */
  lemma SinglePassIsBothQueries(fp: Fingerprint, relation: seq<Row>,
                                ranks: seq<nat>, textRanks: seq<nat>, plain: seq<nat>, text: seq<nat>)
    requires Injective(fp)
    requires IsRowNumber(fp, relation, ById, ranks)
    requires IsRowNumber(fp, relation, ByIdAndText, textRanks)
    requires IsRowNumber(fp, Filtered(relation, false), ById, plain)
    requires IsRowNumber(fp, Filtered(relation, true), ById, text)
    ensures var flagged := FlaggedQuery(relation, ranks, textRanks);
            && AllRows(flagged) == CanonicalQuery(relation, false, plain) + CanonicalQuery(relation, true, text)
            && TextCanonicalRows(flagged) == CanonicalQuery(relation, true, text)
    ensures ReturnsOncePerFlag(relation, ranks, textRanks)
  {
    QueryIsCanonical(fp, relation, false, plain);
    QueryIsCanonical(fp, relation, true, text);
    forall row: Row
      ensures var flagged := FlaggedQuery(relation, ranks, textRanks);
              && (row in AllRows(flagged) <==>
                    row in Canonical(fp, RowsOf(relation), false) || row in Canonical(fp, RowsOf(relation), true))
              && (row in TextCanonicalRows(flagged) <==> row in Canonical(fp, RowsOf(relation), true))
    {
      PlainWindow(fp, relation, ranks, row);
      TextWindow(fp, relation, textRanks, row);
      FlaggedRows(relation, ranks, textRanks, row);
    }
  }

  /* ------------------------------------------------ rows returned with both flags */

  /** A row of the single pass, and the same row with the other flag. */
  ghost predicate CarriesBothFlags(relation: seq<Row>, ranks: seq<nat>, textRanks: seq<nat>, row: Row)
    requires |ranks| == |textRanks| == |relation|
  {
    var flagged := FlaggedQuery(relation, ranks, textRanks);
    (row, true) in flagged && (row, false) in flagged
  }

  /** Some numberings that the engine may choose return the row with both flags. */
  ghost predicate CanCarryBothFlags(fp: Fingerprint, relation: seq<Row>, row: Row)
  {
    exists ranks, textRanks ::
      && IsRowNumber(fp, relation, ById, ranks) && IsRowNumber(fp, relation, ByIdAndText, textRanks)
      && CarriesBothFlags(relation, ranks, textRanks, row)
  }

  ghost predicate Repeated(relation: seq<Row>, row: Row)
  {
    exists p, q :: 0 <= p < |relation| && 0 <= q < |relation| && p != q && relation[p] == relation[q] == row
  }

  /** The order in which a window may number rows: as ranked, and of rows that are not ranked apart
      `favourite` first and the others as they stand. */
  predicate Precedes(fp: Fingerprint, relation: seq<Row>, favourite: nat, j: nat, i: nat)
    requires i < |relation| && j < |relation|
  {
    || Before(fp, relation[j], relation[i])
    || (!Before(fp, relation[i], relation[j]) && i != j && (j == favourite || (i != favourite && j < i)))
  }

  lemma PrecedesIsTotal(fp: Fingerprint, relation: seq<Row>, favourite: nat, i: nat, j: nat)
    requires i < |relation| && j < |relation| && i != j
    ensures Precedes(fp, relation, favourite, i, j) != Precedes(fp, relation, favourite, j, i)
  {
    BeforeIsStrictOrder(fp, relation[i], relation[j], relation[i]);
  }

  lemma PrecedesIsTransitive(fp: Fingerprint, relation: seq<Row>, favourite: nat, i: nat, j: nat, k: nat)
    requires i < |relation| && j < |relation| && k < |relation|
    requires Precedes(fp, relation, favourite, i, j) && Precedes(fp, relation, favourite, j, k)
    ensures Precedes(fp, relation, favourite, i, k)
  {
    var a, b, c := relation[i], relation[j], relation[k];
    BeforeIsStrictOrder(fp, a, b, c);
    BeforeIsStrictOrder(fp, a, b, a);
    BeforeIsStrictOrder(fp, b, c, b);
    if !Before(fp, a, c) {
      if Before(fp, a, b) {
        NotBeforeTransitive(fp, a, c, b);
      } else if Before(fp, b, c) {
        NotBeforeTransitive(fp, b, a, c);
      } else {
        NotBeforeTransitive(fp, c, b, a);
      }
    }
  }

  /** The rows of its partition that are numbered before row `i`. */
  ghost function Predecessors(
    fp: Fingerprint, relation: seq<Row>, partition: Row -> Partition, favourite: nat, i: nat): set<nat>
    requires i < |relation|
  {
    set j: nat |
      j < |relation| && partition(relation[j]) == partition(relation[i]) && Precedes(fp, relation, favourite, j, i)
  }

  /** The numbering of that order. */
  ghost function Numbering(fp: Fingerprint, relation: seq<Row>, partition: Row -> Partition, favourite: nat): seq<nat>
  {
    seq(|relation|, i requires 0 <= i < |relation| => 1 + |Predecessors(fp, relation, partition, favourite, i)|)
  }

  lemma PredecessorsGrow(
    fp: Fingerprint, relation: seq<Row>, partition: Row -> Partition, favourite: nat, j: nat, i: nat)
    requires i < |relation| && j in Predecessors(fp, relation, partition, favourite, i)
    ensures |Predecessors(fp, relation, partition, favourite, j)|
          < |Predecessors(fp, relation, partition, favourite, i)|
  {
    var before := Predecessors(fp, relation, partition, favourite, j);
    var after := Predecessors(fp, relation, partition, favourite, i);
    BeforeIsStrictOrder(fp, relation[j], relation[j], relation[j]);
    forall k | k in before
      ensures k in after - {j}
    {
      PrecedesIsTransitive(fp, relation, favourite, k, j, i);
    }
    SubsetIsSmaller(before, after - {j});
  }

  /** Some row of the partition has nothing before it. */
  lemma {:induction false} PartitionHasFirst(
    fp: Fingerprint, relation: seq<Row>, partition: Row -> Partition, favourite: nat, i: nat) returns (first: nat)
    requires i < |relation|
    ensures first < |relation| && partition(relation[first]) == partition(relation[i])
    ensures Predecessors(fp, relation, partition, favourite, first) == {}
    decreases |Predecessors(fp, relation, partition, favourite, i)|
  {
    if Predecessors(fp, relation, partition, favourite, i) == {} {
      first := i;
    } else {
      var j :| j in Predecessors(fp, relation, partition, favourite, i);
      PredecessorsGrow(fp, relation, partition, favourite, j, i);
      first := PartitionHasFirst(fp, relation, partition, favourite, j);
    }
  }

  /** It is a numbering that the engine may choose. */
  lemma NumberingIsRowNumber(fp: Fingerprint, relation: seq<Row>, partition: Row -> Partition, favourite: nat)
    ensures IsRowNumber(fp, relation, partition, Numbering(fp, relation, partition, favourite))
  {
    var numbers := Numbering(fp, relation, partition, favourite);
    forall i | 0 <= i < |relation|
      ensures HasFirst(relation, partition, numbers, i)
    {
      var first := PartitionHasFirst(fp, relation, partition, favourite, i);
      assert numbers[first] == 1;
    }
    forall i, j |
        0 <= i < |relation| && 0 <= j < |relation| && i != j && partition(relation[i]) == partition(relation[j])
      ensures numbers[i] != numbers[j] && (Before(fp, relation[i], relation[j]) ==> numbers[i] < numbers[j])
    {
      PrecedesIsTotal(fp, relation, favourite, i, j);
      if Precedes(fp, relation, favourite, i, j) {
        PredecessorsGrow(fp, relation, partition, favourite, i, j);
      } else {
        PredecessorsGrow(fp, relation, partition, favourite, j, i);
      }
    }
  }

  /** The favourite is numbered 1 when no row of its partition is ranked before it. */
  lemma FavouriteIsFirst(fp: Fingerprint, relation: seq<Row>, partition: Row -> Partition, favourite: nat)
    requires favourite < |relation|
    requires forall other :: other in relation && partition(other) == partition(relation[favourite]) ==>
               !Before(fp, other, relation[favourite])
    ensures Numbering(fp, relation, partition, favourite)[favourite] == 1
  {
    forall j: nat | j < |relation| && partition(relation[j]) == partition(relation[favourite])
      ensures !Precedes(fp, relation, favourite, j, favourite)
    {
      assert relation[j] in relation;
    }
    assert Predecessors(fp, relation, partition, favourite, favourite) == {};
  }

  /** Two copies of a canonical row, each first in one of the windows. */
  lemma CopiesCanSplit(fp: Fingerprint, relation: seq<Row>, row: Row, p: nat, q: nat)
    requires TextOk(row) && row in Canonical(fp, RowsOf(relation), false)
    requires p < |relation| && q < |relation| && p != q && relation[p] == relation[q] == row
    ensures CanCarryBothFlags(fp, relation, row)
  {
    var ranks, textRanks := Numbering(fp, relation, ById, p), Numbering(fp, relation, ByIdAndText, q);
    NumberingIsRowNumber(fp, relation, ById, p);
    NumberingIsRowNumber(fp, relation, ByIdAndText, q);
    FavouriteIsFirst(fp, relation, ById, p);
    FavouriteIsFirst(fp, relation, ByIdAndText, q);
    var flagged := FlaggedQuery(relation, ranks, textRanks);
    assert textRanks[p] != 1;
    assert (relation[q], true) in flagged && (relation[p], false) in flagged;
    assert CarriesBothFlags(relation, ranks, textRanks, row);
  }

  /** The flag is not a function of the returned row exactly on repeated rows: a row can come back
      with both flags if and only if it has text, is canonical, and stands in the relation twice. */
  lemma BothFlagsExactlyForRepeatedRows(fp: Fingerprint, relation: seq<Row>, row: Row)
    requires Injective(fp)
    ensures CanCarryBothFlags(fp, relation, row)
       <==> TextOk(row) && row in Canonical(fp, RowsOf(relation), false) && Repeated(relation, row)
  {
    if CanCarryBothFlags(fp, relation, row) {
      var ranks, textRanks :|
        && IsRowNumber(fp, relation, ById, ranks) && IsRowNumber(fp, relation, ByIdAndText, textRanks)
        && CarriesBothFlags(relation, ranks, textRanks, row);
      SplitCopies(fp, relation, ranks, textRanks, row);
    }
    if TextOk(row) && row in Canonical(fp, RowsOf(relation), false) && Repeated(relation, row) {
      var p: nat, q: nat :| p < |relation| && q < |relation| && p != q && relation[p] == relation[q] == row;
      CopiesCanSplit(fp, relation, row, p, q);
    }
  }

  lemma SplitCopies(fp: Fingerprint, relation: seq<Row>, ranks: seq<nat>, textRanks: seq<nat>, row: Row)
    requires Injective(fp)
    requires IsRowNumber(fp, relation, ById, ranks) && IsRowNumber(fp, relation, ByIdAndText, textRanks)
    requires CarriesBothFlags(relation, ranks, textRanks, row)
    ensures TextOk(row) && row in Canonical(fp, RowsOf(relation), false) && Repeated(relation, row)
  {
    var q :| 0 <= q < |relation| && relation[q] == row && FlaggedAt(relation, textRanks, q);
    var p :| 0 <= p < |relation| && relation[p] == row && !FlaggedAt(relation, textRanks, p) && ranks[p] == 1;
    PlainWindow(fp, relation, ranks, row);
  }

  /** A row with a description, and nothing else to tell copies of it apart. */
  const EXAMPLE := Row(Identity("way", 1), Some(1), None, "x", Payload(TextPolicy.Text(Some("a"), None), ""))

  lemma ExampleHasText()
    ensures TextOk(EXAMPLE)
  {
    TextOkIsEligible(EXAMPLE);
    TextPolicy.TrimMeaning("a");
  }

  /** Copies of one row may be numbered in any order. */
  lemma CopiesAreNumberedFreely(fp: Fingerprint, relation: seq<Row>, partition: Row -> Partition, numbers: seq<nat>)
    requires |relation| == |numbers| == 2 && relation[0] == relation[1]
    requires (numbers[0] == 1 && numbers[1] == 2) || (numbers[0] == 2 && numbers[1] == 1)
    ensures IsRowNumber(fp, relation, partition, numbers)
  {
    var first := if numbers[0] == 1 then 0 else 1;
    var row := relation[0];
    BeforeIsStrictOrder(fp, row, row, row);
    assert forall i | 0 <= i < 2 :: relation[i] == row;
    forall i | 0 <= i < 2
      ensures HasFirst(relation, partition, numbers, i)
    {
      assert numbers[first] == 1;
    }
    forall i, j |
        0 <= i < |relation| && 0 <= j < |relation| && i != j && partition(relation[i]) == partition(relation[j])
      ensures numbers[i] != numbers[j] && (Before(fp, relation[i], relation[j]) ==> numbers[i] < numbers[j])
    {
      assert relation[i] == row && relation[j] == row;
      assert !Before(fp, row, row);
    }
  }

  /** A relation, and two numberings of it that the engine may choose, under which one row carries both flags. */
  lemma TwoCopiesCarryBothFlags(fp: Fingerprint)
    ensures IsRowNumber(fp, [EXAMPLE, EXAMPLE], ById, [1, 2])
    ensures IsRowNumber(fp, [EXAMPLE, EXAMPLE], ByIdAndText, [2, 1])
    ensures CarriesBothFlags([EXAMPLE, EXAMPLE], [1, 2], [2, 1], EXAMPLE)
  {
    ExampleHasText();
    CopiesAreNumberedFreely(fp, [EXAMPLE, EXAMPLE], ById, [1, 2]);
    CopiesAreNumberedFreely(fp, [EXAMPLE, EXAMPLE], ByIdAndText, [2, 1]);
    CopiesCarryBothFlags(EXAMPLE);
  }

  lemma CopiesCarryBothFlags(row: Row)
    requires TextOk(row)
    ensures CarriesBothFlags([row, row], [1, 2], [2, 1], row)
  {
    var relation: seq<Row>, ranks: seq<nat>, textRanks: seq<nat> := [row, row], [1, 2], [2, 1];
    var flagged := FlaggedQuery(relation, ranks, textRanks);
    assert (relation[1], true) in flagged;
    assert (relation[0], false) in flagged;
  }
}
