/** Shard checkpoints and the receipts of committed parts.

    Part names encode where a part starts, receipts where it starts and ends.  A
    checkpoint and a receipt chain that pass validation together split the consumed
    input rows into consecutive full batches, of which only the last may be short.
 */
module Checkpoint {
  import opened Wrappers
  import opened TextOrder

  const PART_WIDTH := 20
  const MAX_BATCH_SIZE := 4096
  const PREFIX := "part-"
  const SUFFIX := ".parquet"

  /* -------------------------------------------------------------- part names */

  function Pow10(n: nat): nat
  {
    if n == 0 then 1 else 10 * Pow10(n - 1)
  }

  predicate IsDigit(c: char)
  {
    '0' <= c <= '9'
  }

  predicate Digits(text: string)
  {
    forall i | 0 <= i < |text| :: IsDigit(text[i])
  }

  function DigitValue(c: char): (value: nat)
    requires IsDigit(c)
    ensures value < 10
  {
    c as int - '0' as int
  }

  function DigitOf(value: nat): (c: char)
    requires value < 10
    ensures IsDigit(c) && DigitValue(c) == value
  {
    (value + '0' as int) as char
  }

  /** `value` in decimal, padded with zeros to `width` digits. */
  function Padded(value: nat, width: nat): (text: string)
    requires value < Pow10(width)
    ensures |text| == width && Digits(text)
    decreases width
  {
    if width == 0 then ""
    else Padded(value / 10, width - 1) + [DigitOf(value % 10)]
  }

  /** The number that the digits read from left to right give. */
  function ValueOf(digits: string): nat
    requires Digits(digits)
  {
    if digits == "" then 0
    else 10 * ValueOf(digits[..|digits| - 1]) + DigitValue(digits[|digits| - 1])
  }

  lemma {:induction false} ValueOfPadded(value: nat, width: nat)
    requires value < Pow10(width)
    ensures ValueOf(Padded(value, width)) == value
  {
    if width > 0 {
      ValueOfPadded(value / 10, width - 1);
      assert Padded(value, width)[..width - 1] == Padded(value / 10, width - 1);
    }
  }

  lemma {:induction false} PaddedValueOf(digits: string)
    requires Digits(digits)
    ensures ValueOf(digits) < Pow10(|digits|) && Padded(ValueOf(digits), |digits|) == digits
  {
    if digits != "" {
      var n := |digits| - 1;
      var before, last := ValueOf(digits[..n]), DigitValue(digits[n]);
      PaddedValueOf(digits[..n]);
      assert ValueOf(digits) / 10 == before && ValueOf(digits) % 10 == last;
      DigitOfValue(digits[n]);
      assert Padded(ValueOf(digits), n + 1) == digits[..n] + [digits[n]] == digits;
    }
  }

  lemma DigitOfValue(c: char)
    requires IsDigit(c)
    ensures DigitOf(DigitValue(c)) == c
  {
  }

  /** The first digit counts most. */
  lemma {:induction false} FirstDigit(digits: string)
    requires Digits(digits) && digits != ""
    ensures ValueOf(digits) == DigitValue(digits[0]) * Pow10(|digits| - 1) + ValueOf(digits[1..])
  {
    var n := |digits| - 1;
    if n > 0 {
      FirstDigit(digits[..n]);
      assert digits[..n][1..] == digits[1..][..n - 1];
      assert ValueOf(digits[1..]) == 10 * ValueOf(digits[1..][..n - 1]) + DigitValue(digits[n]);
      TenTimes(DigitValue(digits[0]), Pow10(n - 1));
    }
  }

  lemma TenTimes(x: nat, y: nat)
    ensures 10 * (x * y) == x * (10 * y)
  {
  }

  lemma FirstDigitDecides(a: string, b: string)
    requires Digits(a) && Digits(b) && |a| == |b| > 0 && DigitValue(a[0]) < DigitValue(b[0])
    ensures ValueOf(a) < ValueOf(b)
  {
    FirstDigit(a);
    FirstDigit(b);
    PaddedValueOf(a[1..]);
    LeadingDecides(DigitValue(a[0]), DigitValue(b[0]), Pow10(|a| - 1), ValueOf(a[1..]), ValueOf(b[1..]));
  }

  lemma LeadingDecides(x: nat, y: nat, unit: nat, rest: nat, other: nat)
    requires x < y && rest < unit
    ensures x * unit + rest < y * unit + other
  {
    TimesGrows(x + 1, y, unit);
    Distributes(x, 1, unit);
  }

  lemma Distributes(x: int, y: int, unit: int)
    ensures (x + y) * unit == x * unit + y * unit
  {
  }

  lemma {:induction false} TimesGrows(x: nat, y: nat, unit: nat)
    requires x <= y
    ensures x * unit <= y * unit
    decreases y - x
  {
    if x < y {
      TimesGrows(x + 1, y, unit);
      Distributes(x, 1, unit);
    }
  }

  /** On digits of one width the order of texts is the order of numbers. */
  lemma {:induction false} TextOrderIsNumberOrder(a: string, b: string)
    requires Digits(a) && Digits(b) && |a| == |b|
    ensures Less(a, b) <==> ValueOf(a) < ValueOf(b)
  {
    if a != "" {
      if a[0] == b[0] {
        FirstDigit(a);
        FirstDigit(b);
        TextOrderIsNumberOrder(a[1..], b[1..]);
      } else if a[0] < b[0] {
        FirstDigitDecides(a, b);
      } else {
        FirstDigitDecides(b, a);
      }
    }
  }

  /** The part name for a batch that starts at `offset`, or None when the offset is out of range. */
  function PartNameForOffset(offset: int): Option<string>
  {
    if offset < 0 || offset >= Pow10(PART_WIDTH) then None
    else Some(PREFIX + Padded(offset, PART_WIDTH) + SUFFIX)
  }

  function DigitsOfName(name: string): string
    requires |name| == |PREFIX| + PART_WIDTH + |SUFFIX|
  {
    name[|PREFIX|..|PREFIX| + PART_WIDTH]
  }

  predicate IsPartName(name: string)
  {
    && |name| == |PREFIX| + PART_WIDTH + |SUFFIX|
    && name[..|PREFIX|] == PREFIX && name[|PREFIX| + PART_WIDTH..] == SUFFIX
    && Digits(DigitsOfName(name))
  }

  /** The offset that a part name encodes, or None when it is not a part name. */
  function PartOffset(name: string): Option<nat>
  {
    if IsPartName(name) then Some(ValueOf(DigitsOfName(name))) else None
  }

  lemma Framed(prefix: string, middle: string, suffix: string, name: string)
    ensures name == prefix + middle + suffix
       <==> && |name| == |prefix| + |middle| + |suffix|
            && name[..|prefix|] == prefix && name[|prefix|..|prefix| + |middle|] == middle
            && name[|prefix| + |middle|..] == suffix
  {
    var at := |prefix| + |middle|;
    if |name| == |prefix| + |middle| + |suffix| {
      assert name == name[..|prefix|] + name[|prefix|..at] + name[at..];
    }
  }

  /** Names and offsets below 10^20 are inverse to each other. */
  lemma PartNamesAndOffsetsAreInverse(offset: int, name: string)
    ensures PartNameForOffset(offset) == Some(name) <==> PartOffset(name) == Some(offset)
    ensures PartOffset(name).Some? ==> PartOffset(name).value < Pow10(PART_WIDTH)
  {
    if PartNameForOffset(offset) == Some(name) {
      ValueOfPadded(offset, PART_WIDTH);
      Framed(PREFIX, Padded(offset, PART_WIDTH), SUFFIX, name);
    }
    if IsPartName(name) {
      PaddedValueOf(DigitsOfName(name));
      Framed(PREFIX, DigitsOfName(name), SUFFIX, name);
    }
  }

  lemma {:induction false} LessAfterPrefix(prefix: string, a: string, b: string)
    ensures Less(prefix + a, prefix + b) <==> Less(a, b)
  {
    if prefix == "" {
      assert prefix + a == a && prefix + b == b;
    } else {
      LessAfterPrefix(prefix[1..], a, b);
      assert (prefix + a)[1..] == prefix[1..] + a && (prefix + b)[1..] == prefix[1..] + b;
    }
  }

  lemma {:induction false} LessBeforeSuffix(a: string, b: string, suffix: string)
    requires |a| == |b|
    ensures Less(a + suffix, b + suffix) <==> Less(a, b)
  {
    if a == "" {
      LessIrreflexive(suffix);
      assert a + suffix == b + suffix == suffix;
    } else {
      LessBeforeSuffix(a[1..], b[1..], suffix);
      assert (a + suffix)[1..] == a[1..] + suffix && (b + suffix)[1..] == b[1..] + suffix;
    }
  }

  /** Sorting part names as texts sorts them by offset. */
  lemma NameOrderIsCursorOrder(a: string, b: string)
    requires IsPartName(a) && IsPartName(b)
    ensures Less(a, b) <==> PartOffset(a).value < PartOffset(b).value
  {
    var x, y := DigitsOfName(a), DigitsOfName(b);
    assert a == PREFIX + (x + SUFFIX) && b == PREFIX + (y + SUFFIX);
    LessAfterPrefix(PREFIX, x + SUFFIX, y + SUFFIX);
    LessBeforeSuffix(x, y, SUFFIX);
    TextOrderIsNumberOrder(x, y);
  }

  /* ---------------------------------------------------------------- validation */

  datatype Receipt = Receipt(
    snapshotId: string, modelFingerprint: string, shard: string, start: int, end: int,
    partName: string, rowCount: int, sourceSha256: string, schemaFingerprint: string)

  datatype Status = Paused | Complete

  datatype ShardCheckpoint = ShardCheckpoint(
    snapshotId: string, modelFingerprint: string, shard: string, batchSize: int, inputRowCount: int,
    cursor: int, annotationCount: int, parts: seq<string>, status: Status)

  /** The snapshot's identity of the shard's source. */
  datatype Source = Source(sha256: string, schemaFingerprint: string)

  datatype Error =
    | NegativeCursor | EmptyReceipt | InvalidPartName | UnboundPartName | InvalidBatchSize
    | DuplicateParts | UnorderedParts | CursorBeyondInput | CursorOffBatch | PartsDoNotCover | WrongStatus
    | LengthsDiffer | ReceiptMismatch(part: string) | NotContiguous(part: string) | WrongEnd

  type Check = Option<Error>

  /** What a receipt is checked for when it is built. */
  function ReceiptCheck(r: Receipt): Check
  {
    if r.start < 0 || r.end < 0 then Some(NegativeCursor)
    else if r.end <= r.start then Some(EmptyReceipt)
    else if PartOffset(r.partName).None? then Some(InvalidPartName)
    else if PartNameForOffset(r.start) != Some(r.partName) then Some(UnboundPartName)
    else if r.rowCount < 0 then Some(NegativeCursor)
    else None
  }

  /** A receipt can be built exactly when it spans some rows from the offset that its part name encodes. */
  lemma ReceiptCheckMeaning(r: Receipt)
    ensures ReceiptCheck(r).None?
       <==> 0 <= r.start < r.end && r.rowCount >= 0 && PartOffset(r.partName) == Some(r.start)
  {
    PartNamesAndOffsetsAreInverse(r.start, r.partName);
  }

  /** Part names with strictly increasing offsets. */
  predicate CursorOrdered(parts: seq<string>)
  {
    && (forall i | 0 <= i < |parts| :: PartOffset(parts[i]).Some?)
    && (forall i, j | 0 <= i < j < |parts| :: PartOffset(parts[i]).value < PartOffset(parts[j]).value)
  }

  predicate Distinct(parts: seq<string>)
  {
    forall i, j | 0 <= i < j < |parts| :: parts[i] != parts[j]
  }

  /** The list equals its own sorted version. */
  predicate InTextOrder(parts: seq<string>)
  {
    forall i, j | 0 <= i < j < |parts| :: !Less(parts[j], parts[i])
  }

  lemma TextOrderIsCursorOrder(parts: seq<string>)
    requires forall i :: 0 <= i < |parts| ==> PartOffset(parts[i]).Some?
    ensures Distinct(parts) && InTextOrder(parts) <==> CursorOrdered(parts)
  {
    forall i, j | 0 <= i < j < |parts|
      ensures parts[i] != parts[j] && !Less(parts[j], parts[i])
         <==> PartOffset(parts[i]).value < PartOffset(parts[j]).value
    {
      NameOrderIsCursorOrder(parts[i], parts[j]);
      LessTotal(parts[i], parts[j]);
      LessIrreflexive(parts[i]);
    }
    if CursorOrdered(parts) {
      assert forall i, j :: 0 <= i < j < |parts| ==> parts[i] != parts[j] && !Less(parts[j], parts[i]);
    }
  }

  /** Names are checked one by one, then for repetition, then for order as texts; together that is cursor order. */
  method ValidatedParts(parts: seq<string>) returns (check: Check)
    ensures check.None? <==> CursorOrdered(parts)
    ensures check == Some(InvalidPartName) <==> exists i :: 0 <= i < |parts| && PartOffset(parts[i]).None?
    ensures check.Some? ==> check.value in {InvalidPartName, DuplicateParts, UnorderedParts}
    ensures check == Some(DuplicateParts) ==> !Distinct(parts)
    ensures check == Some(UnorderedParts) ==> Distinct(parts)
  {
    for i := 0 to |parts|
      invariant forall k :: 0 <= k < i ==> PartOffset(parts[k]).Some?
    {
      if PartOffset(parts[i]).None? {
        return Some(InvalidPartName);
      }
    }
    TextOrderIsCursorOrder(parts);
    if !Distinct(parts) {
      return Some(DuplicateParts);
    }
    if !InTextOrder(parts) {
      return Some(UnorderedParts);
    }
    return None;
  }

  predicate CursorFits(c: ShardCheckpoint)
    requires c.batchSize > 0
  {
    c.cursor <= c.inputRowCount && (c.cursor < c.inputRowCount ==> c.cursor % c.batchSize == 0)
  }

  /** One part for each started batch below the cursor. */
  predicate PartsCover(parts: seq<string>, cursor: int, batchSize: int)
    requires batchSize > 0
  {
    && |parts| == (cursor + batchSize - 1) / batchSize
    && forall i | 0 <= i < |parts| :: PartOffset(parts[i]) == Some(i * batchSize)
  }

  method ValidateCheckpointParts(parts: seq<string>, cursor: nat, batchSize: nat) returns (check: Check)
    requires batchSize > 0
    ensures check == if PartsCover(parts, cursor, batchSize) then None else Some(PartsDoNotCover)
  {
    if |parts| != (cursor + batchSize - 1) / batchSize {
      return Some(PartsDoNotCover);
    }
    for i := 0 to |parts|
      invariant forall k :: 0 <= k < i ==> PartOffset(parts[k]) == Some(k * batchSize)
    {
      if PartOffset(parts[i]) != Some(i * batchSize) {
        return Some(PartsDoNotCover);
      }
    }
    return None;
  }

  predicate ValidCheckpoint(c: ShardCheckpoint)
  {
    && CursorOrdered(c.parts)
    && 0 < c.batchSize <= MAX_BATCH_SIZE
    && c.inputRowCount >= 0 && c.cursor >= 0 && c.annotationCount >= 0
    && CursorFits(c)
    && PartsCover(c.parts, c.cursor, c.batchSize)
    && (c.status.Complete? <==> c.cursor == c.inputRowCount)
  }

  /** What an error says of the checkpoint. */
  predicate IsWrong(c: ShardCheckpoint, error: Error)
  {
    match error
    case InvalidPartName => exists i :: 0 <= i < |c.parts| && PartOffset(c.parts[i]).None?
    case DuplicateParts => !Distinct(c.parts)
    case UnorderedParts => !CursorOrdered(c.parts) && Distinct(c.parts)
    case InvalidBatchSize => !(1 <= c.batchSize <= 4096)
    case NegativeCursor => c.inputRowCount < 0 || c.cursor < 0 || c.annotationCount < 0
    case CursorBeyondInput => c.cursor > c.inputRowCount
    case CursorOffBatch => c.batchSize > 0 && c.cursor < c.inputRowCount && c.cursor % c.batchSize != 0
    case PartsDoNotCover => c.batchSize > 0 && !PartsCover(c.parts, c.cursor, c.batchSize)
    case WrongStatus => c.status.Complete? != (c.cursor == c.inputRowCount)
    case _ => false
  }

  /** A checkpoint is valid exactly when no error says something of it. */
  lemma ValidExactlyWhenNothingIsWrong(c: ShardCheckpoint)
    ensures ValidCheckpoint(c) <==> forall error :: !IsWrong(c, error)
  {
    if forall error :: !IsWrong(c, error) {
      assert !IsWrong(c, InvalidPartName) && !IsWrong(c, DuplicateParts) && !IsWrong(c, UnorderedParts);
      assert !IsWrong(c, InvalidBatchSize) && !IsWrong(c, NegativeCursor) && !IsWrong(c, CursorBeyondInput);
      assert !IsWrong(c, CursorOffBatch) && !IsWrong(c, PartsDoNotCover) && !IsWrong(c, WrongStatus);
    }
  }

  method ValidateCheckpoint(c: ShardCheckpoint) returns (check: Check)
    ensures check.None? <==> ValidCheckpoint(c)
    ensures check.Some? ==> IsWrong(c, check.value)
  {
    check := ValidatedParts(c.parts);
    if check.Some? {
      return;
    }
    if c.batchSize <= 0 || c.batchSize > MAX_BATCH_SIZE {
      return Some(InvalidBatchSize);
    }
    if c.inputRowCount < 0 || c.cursor < 0 || c.annotationCount < 0 {
      return Some(NegativeCursor);
    }
    if c.cursor > c.inputRowCount {
      return Some(CursorBeyondInput);
    }
    if c.cursor < c.inputRowCount && c.cursor % c.batchSize != 0 {
      return Some(CursorOffBatch);
    }
    check := ValidateCheckpointParts(c.parts, c.cursor, c.batchSize);
    if check.Some? {
      return;
    }
    if c.status.Complete? != (c.cursor == c.inputRowCount) {
      return Some(WrongStatus);
    }
  }

  /** The receipt belongs to this part of this checkpoint and source. */
  predicate Bound(r: Receipt, c: ShardCheckpoint, part: string, source: Source)
  {
    && r.partName == part && r.snapshotId == c.snapshotId && r.modelFingerprint == c.modelFingerprint
    && r.shard == c.shard && r.sourceSha256 == source.sha256 && r.schemaFingerprint == source.schemaFingerprint
  }

  /** Where receipt `i` must start: at the end of the one before. */
  function ExpectedCursor(receipts: seq<Receipt>, i: nat): int
    requires i <= |receipts|
  {
    if i == 0 then 0 else receipts[i - 1].end
  }

  predicate Linked(c: ShardCheckpoint, receipts: seq<Receipt>, source: Source, i: nat)
    requires i < |receipts| && i < |c.parts|
  {
    Bound(receipts[i], c, c.parts[i], source) && receipts[i].start == ExpectedCursor(receipts, i)
  }

  /** Every receipt is bound and starts where the one before ends, and the last ends at the cursor. */
  predicate Chained(c: ShardCheckpoint, receipts: seq<Receipt>, source: Source)
  {
    && |receipts| == |c.parts|
    && (forall i | 0 <= i < |receipts| :: Linked(c, receipts, source, i))
    && ExpectedCursor(receipts, |receipts|) == c.cursor
  }

  /** Receipt `i` is the first that is not linked. */
  predicate FirstFailure(c: ShardCheckpoint, receipts: seq<Receipt>, source: Source, i: nat)
  {
    && i < |receipts| == |c.parts| && !Linked(c, receipts, source, i)
    && forall k: nat | k < i :: Linked(c, receipts, source, k)
  }

  /** Validate every committed receipt against one checkpoint and source; the error names the first
      receipt that fails. */
  method ValidateReceiptChain(c: ShardCheckpoint, receipts: seq<Receipt>, source: Source) returns (check: Check)
    ensures check.None? <==> Chained(c, receipts, source)
    ensures check.None? ==> forall i: nat :: i < |receipts| ==>
              && receipts[i].partName == c.parts[i] && receipts[i].shard == c.shard
              && (receipts[i].snapshotId, receipts[i].modelFingerprint) == (c.snapshotId, c.modelFingerprint)
              && (receipts[i].sourceSha256, receipts[i].schemaFingerprint) == (source.sha256, source.schemaFingerprint)
    ensures check == Some(LengthsDiffer) <==> |receipts| != |c.parts|
    ensures check.Some? && (check.value.ReceiptMismatch? || check.value.NotContiguous?) ==>
              exists i: nat :: i < |receipts| && FirstFailure(c, receipts, source, i) && check.value.part == c.parts[i]
                               && (check.value.ReceiptMismatch? <==> !Bound(receipts[i], c, c.parts[i], source))
    ensures check.Some? && !check.value.ReceiptMismatch? && !check.value.NotContiguous? ==>
              check.value in {LengthsDiffer, WrongEnd}
  {
    if |receipts| != |c.parts| {
      return Some(LengthsDiffer);
    }
    var expected := 0;
    for i := 0 to |receipts|
      invariant expected == ExpectedCursor(receipts, i)
      invariant forall k: nat :: k < i ==> Linked(c, receipts, source, k)
    {
      var receipt, part := receipts[i], c.parts[i];
      if !Bound(receipt, c, part, source) {
        assert FirstFailure(c, receipts, source, i);
        return Some(ReceiptMismatch(part));
      }
      if receipt.start != expected {
        assert FirstFailure(c, receipts, source, i);
        return Some(NotContiguous(part));
      }
      expected := receipt.end;
    }
    forall k: nat | k < |receipts|
      ensures Bound(receipts[k], c, c.parts[k], source)
    {
      assert Linked(c, receipts, source, k);
    }
    return if expected != c.cursor then Some(WrongEnd) else None;
  }

  /* --------------------------------------------------------- the exact partition */

  function Min(a: int, b: int): int
  {
    if a <= b then a else b
  }

  predicate AllValid(receipts: seq<Receipt>)
  {
    forall r | r in receipts :: ReceiptCheck(r).None?
  }

  /** Receipt `i` covers batch `i` of the rows below the cursor. */
  predicate CoversBatch(c: ShardCheckpoint, r: Receipt, i: nat)
  {
    r.start == i * c.batchSize && r.end == Min((i + 1) * c.batchSize, c.cursor)
  }

  lemma NextBatch(i: nat, batchSize: nat)
    ensures (i + 1) * batchSize == i * batchSize + batchSize
  {
  }

  /** The last started batch is the one that the cursor lies in or ends. */
  lemma LastBatch(cursor: nat, batchSize: nat, count: nat)
    requires batchSize > 0 && count == (cursor + batchSize - 1) / batchSize
    ensures cursor <= count * batchSize < cursor + batchSize
  {
  }

  lemma StartsAtItsPart(c: ShardCheckpoint, r: Receipt, i: nat)
    requires i < |c.parts| && c.batchSize > 0 && PartsCover(c.parts, c.cursor, c.batchSize)
    requires ReceiptCheck(r).None? && r.partName == c.parts[i]
    ensures r.start == i * c.batchSize
  {
    PartNamesAndOffsetsAreInverse(r.start, r.partName);
  }

  lemma ChainCoversBatches(c: ShardCheckpoint, receipts: seq<Receipt>, source: Source, i: nat)
    requires ValidCheckpoint(c) && Chained(c, receipts, source) && i < |receipts|
    requires AllValid(receipts)
    ensures CoversBatch(c, receipts[i], i)
  {
    LastBatch(c.cursor, c.batchSize, |receipts|);
    assert receipts[i] in receipts && Linked(c, receipts, source, i);
    StartsAtItsPart(c, receipts[i], i);
    NextBatch(i, c.batchSize);
    if i + 1 < |receipts| {
      assert receipts[i + 1] in receipts && Linked(c, receipts, source, i + 1);
      StartsAtItsPart(c, receipts[i + 1], i + 1);
      BatchesBefore(i + 2, |receipts|, c.batchSize);
      NextBatch(i + 1, c.batchSize);
    }
  }

  lemma {:induction false} BatchesBefore(i: nat, count: nat, batchSize: nat)
    requires i <= count
    ensures i * batchSize <= count * batchSize
    decreases count - i
  {
    if i < count {
      BatchesBefore(i + 1, count, batchSize);
      NextBatch(i, batchSize);
    }
  }

  /** A chain passes validation exactly when every receipt is bound and covers precisely its own batch. */
  lemma ChainIsExactlyThePartition(c: ShardCheckpoint, receipts: seq<Receipt>, source: Source)
    requires ValidCheckpoint(c)
    requires AllValid(receipts)
    ensures Chained(c, receipts, source)
       <==> && |receipts| == |c.parts|
            && forall i :: 0 <= i < |receipts| ==>
                 Bound(receipts[i], c, c.parts[i], source) && CoversBatch(c, receipts[i], i)
  {
    var n := |receipts|;
    if Chained(c, receipts, source) {
      forall i | 0 <= i < n
        ensures Bound(receipts[i], c, c.parts[i], source) && CoversBatch(c, receipts[i], i)
      {
        assert Linked(c, receipts, source, i);
        ChainCoversBatches(c, receipts, source, i);
      }
    }
    if n == |c.parts| && forall i :: 0 <= i < n ==>
         Bound(receipts[i], c, c.parts[i], source) && CoversBatch(c, receipts[i], i) {
      PartitionIsChained(c, receipts, source);
    }
  }

  lemma PartitionIsChained(c: ShardCheckpoint, receipts: seq<Receipt>, source: Source)
    requires ValidCheckpoint(c) && |receipts| == |c.parts|
    requires forall i :: 0 <= i < |receipts| ==>
               Bound(receipts[i], c, c.parts[i], source) && CoversBatch(c, receipts[i], i)
    ensures Chained(c, receipts, source)
  {
    var n := |receipts|;
    LastBatch(c.cursor, c.batchSize, n);
    forall i: nat | i < n
      ensures Linked(c, receipts, source, i)
    {
      if i > 0 {
        NextBatch(i - 1, c.batchSize);
        NextBatch(n - 1, c.batchSize);
        BatchesBefore(i, n - 1, c.batchSize);
        assert CoversBatch(c, receipts[i - 1], i - 1);
      }
    }
    if n > 0 {
      assert CoversBatch(c, receipts[n - 1], n - 1);
    }
  }

  /** Every receipt but the last spans a full batch, the last spans at least one row and at most a
      batch, and while input remains the last is full as well. */
  lemma BatchesAreFull(c: ShardCheckpoint, receipts: seq<Receipt>, source: Source, i: nat)
    requires ValidCheckpoint(c) && Chained(c, receipts, source) && i < |receipts|
    requires AllValid(receipts)
    ensures 1 <= receipts[i].end - receipts[i].start <= c.batchSize
    ensures i < |receipts| - 1 || c.cursor < c.inputRowCount ==> receipts[i].end - receipts[i].start == c.batchSize
    ensures i == |receipts| - 1 ==> receipts[i].end == c.cursor
  {
    ChainCoversBatches(c, receipts, source, i);
    BatchSpan(c.cursor, c.batchSize, |receipts|, i);
  }

  lemma BatchSpan(cursor: nat, batchSize: nat, count: nat, i: nat)
    requires batchSize > 0 && count == (cursor + batchSize - 1) / batchSize && i < count
    ensures var span := Min((i + 1) * batchSize, cursor) - i * batchSize;
            && 1 <= span <= batchSize
            && (i < count - 1 || cursor % batchSize == 0 ==> span == batchSize)
            && (i == count - 1 ==> Min((i + 1) * batchSize, cursor) == cursor)
  {
    NextBatch(i, batchSize);
    LastBatch(cursor, batchSize, count);
    BatchesBefore(i + 1, count, batchSize);
    NextBatch(count - 1, batchSize);
    if i < count - 1 {
      BatchesBefore(i + 1, count - 1, batchSize);
    } else if cursor % batchSize == 0 {
      ExactBatches(cursor, batchSize, count);
    }
  }

  lemma ExactBatches(cursor: nat, batchSize: nat, count: nat)
    requires batchSize > 0 && cursor % batchSize == 0 && count == (cursor + batchSize - 1) / batchSize
    ensures cursor == count * batchSize
  {
    LastBatch(cursor, batchSize, count);
    var q := cursor / batchSize;
    assert cursor == q * batchSize;
    if q + 1 <= count {
      BatchesBefore(q + 1, count, batchSize);
      NextBatch(q, batchSize);
    } else if count + 1 <= q {
      BatchesBefore(count + 1, q, batchSize);
      NextBatch(count, batchSize);
    }
  }

  /** Every consumed row is covered by exactly one receipt, and no other row by any. */
  lemma EachConsumedRowHasOneReceipt(c: ShardCheckpoint, receipts: seq<Receipt>, source: Source, row: nat)
    requires ValidCheckpoint(c) && Chained(c, receipts, source)
    requires AllValid(receipts)
    ensures forall i :: 0 <= i < |receipts| ==>
              (receipts[i].start <= row < receipts[i].end <==> row < c.cursor && i == row / c.batchSize)
    ensures row < c.cursor ==> 0 <= row / c.batchSize < |receipts|
  {
    forall i | 0 <= i < |receipts|
      ensures receipts[i].start <= row < receipts[i].end <==> row < c.cursor && i == row / c.batchSize
    {
      ChainCoversBatches(c, receipts, source, i);
      BatchOf(row, c.batchSize, i);
    }
    if row < c.cursor {
      RowHasBatch(c.cursor, c.batchSize, |receipts|, row);
    }
  }

  /** A receipt of the list covers the row. */
  predicate Covered(receipts: seq<Receipt>, row: nat)
  {
    exists r :: r in receipts && r.start <= row < r.end
  }

  /** A validated checkpoint is complete exactly when its receipts cover every input row. */
  lemma CompleteExactlyWhenAllRowsAreCovered(c: ShardCheckpoint, receipts: seq<Receipt>, source: Source)
    requires ValidCheckpoint(c) && Chained(c, receipts, source)
    requires AllValid(receipts)
    ensures c.status == Complete <==> forall row: nat :: row < c.inputRowCount ==> Covered(receipts, row)
  {
    if c.status == Complete {
      forall row: nat | row < c.inputRowCount
        ensures Covered(receipts, row)
      {
        CoveredExactlyBelowCursor(c, receipts, source, row);
      }
    } else {
      CoveredExactlyBelowCursor(c, receipts, source, c.cursor);
    }
  }

  lemma CoveredExactlyBelowCursor(c: ShardCheckpoint, receipts: seq<Receipt>, source: Source, row: nat)
    requires ValidCheckpoint(c) && Chained(c, receipts, source)
    requires AllValid(receipts)
    ensures Covered(receipts, row) <==> row < c.cursor
  {
    EachConsumedRowHasOneReceipt(c, receipts, source, row);
    CoveredByOne(receipts, row, row < c.cursor, row / c.batchSize);
  }

  lemma CoveredByOne(receipts: seq<Receipt>, row: nat, covered: bool, k: int)
    requires covered ==> 0 <= k < |receipts|
    requires forall i :: 0 <= i < |receipts| ==> (receipts[i].start <= row < receipts[i].end <==> covered && i == k)
    ensures Covered(receipts, row) <==> covered
  {
    if covered {
      assert receipts[k] in receipts;
    }
  }

  lemma RowHasBatch(cursor: nat, batchSize: nat, count: nat, row: nat)
    requires batchSize > 0 && count == (cursor + batchSize - 1) / batchSize && row < cursor
    ensures row / batchSize < count
  {
    LastBatch(cursor, batchSize, count);
    BatchOf(row, batchSize, row / batchSize);
    if count <= row / batchSize {
      BatchesBefore(count, row / batchSize, batchSize);
    }
  }

  lemma BatchOf(row: nat, batchSize: nat, i: nat)
    requires batchSize > 0
    ensures i == row / batchSize <==> i * batchSize <= row < (i + 1) * batchSize
  {
    var q := row / batchSize;
    NextBatch(q, batchSize);
    if i < q {
      BatchesBefore(i + 1, q, batchSize);
    } else if q < i {
      BatchesBefore(q + 1, i, batchSize);
    }
  }
}
