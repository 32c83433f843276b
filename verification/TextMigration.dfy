/** Repair of artifacts whose description text was stored untrimmed.

    The repaired Parquet is promoted before its manifest, so a kill can leave the new
    Parquet beside the old manifest; a later run reconstructs the missing manifest
    update from the gap between recorded and actual rows.
 */
module TextMigration {
  import opened Wrappers
  import opened Counts
  import opened TextPolicy

  const REJECTION_REASON := "no_nonempty_description"

  /** `rest` stands for the columns that a repair carries through untouched. */
  datatype StoredRow = StoredRow(text: Text, rest: string)

  /** Rows with the `geo` block that describes them. */
  datatype Parquet = Parquet(rows: seq<StoredRow>, geo: string)

  /** A collision-free SHA-256: the digest of a file determines its content. */
  datatype Digest = Sha256(parquet: Parquet)

  /** Counts in memory; reading them from disk refuses negative ones. */
  datatype RunCounts = RunCounts(emitted: nat, included: int, rejections: map<string, nat>)

  datatype Manifest = Manifest(output: Digest, counts: RunCounts, rest: string)

  datatype Disk = Disk(parquet: Parquet, manifest: Manifest)

  datatype Error = InvalidManifest | MoreRowsThanRecorded

  /** The `geo` block for some rows. */
  type GeoBlock = seq<StoredRow> -> string

  /* ----------------------------------------------------------- canonical rows */

  /** One trimmed entry, or nothing when it has no key or carries no text. */
  function CanonicalEntry(item: Option<Entry>): Option<Option<Entry>>
  {
    if item.None? || item.value.key.None? || TrimmedNonemptyText(item.value.value).None? then None
    else Some(Some(Entry(item.value.key, TrimmedNonemptyText(item.value.value))))
  }

  /** The values of `f` on the items, in order, without those on which it has none. */
  function FilterMap<T>(f: T -> Option<T>, items: seq<T>): seq<T>
  {
    if items == [] then []
    else
      var n := |items| - 1;
      FilterMap(f, items[..n]) + if f(items[n]).None? then [] else [f(items[n]).value]
  }

  function Without<T>(f: T -> Option<T>, items: seq<T>): (missing: nat)
    ensures |FilterMap(f, items)| + missing == |items|
  {
    if items == [] then 0 else Without(f, items[..|items| - 1]) + if f(items[|items| - 1]).None? then 1 else 0
  }

  function CanonicalEntries(entries: seq<Option<Entry>>): seq<Option<Entry>>
  {
    FilterMap(CanonicalEntry, entries)
  }

  function CanonicalLocalized(value: Option<seq<Option<Entry>>>): seq<Option<Entry>>
  {
    if value.None? then [] else CanonicalEntries(value.value)
  }

  function CanonicalText(text: Text): Text
  {
    Text(TrimmedNonemptyText(text.description), Some(CanonicalLocalized(text.localized)))
  }

  /** The canonical row, or None when it carries no text. */
  function CanonicalRow(row: StoredRow): Option<StoredRow>
  {
    var repaired := row.(text := CanonicalText(row.text));
    if HasSuccessfulText(repaired.text) then Some(repaired) else None
  }

  /** Whether the stored text differs from the canonical one; a null list counts as an empty one. */
  predicate RowChanged(before: StoredRow, after: StoredRow)
  {
    var previous := if before.text.localized.Some? then before.text.localized.value else [];
    before.text.description != after.text.description || Some(previous) != after.text.localized
  }

  predicate RequiresMigration(row: StoredRow)
  {
    CanonicalRow(row).None? || RowChanged(row, CanonicalRow(row).value)
  }

  predicate Clean(rows: seq<StoredRow>)
  {
    forall row | row in rows :: !RequiresMigration(row)
  }

  function RepairedRows(rows: seq<StoredRow>): seq<StoredRow>
  {
    FilterMap(CanonicalRow, rows)
  }

  /** The number of rows that the repair drops. */
  function DroppedRows(rows: seq<StoredRow>): (dropped: nat)
    ensures |RepairedRows(rows)| + dropped == |rows|
  {
    Without(CanonicalRow, rows)
  }

  predicate HasKeys(text: Text)
  {
    text.localized.Some? ==> forall entry | entry in text.localized.value :: entry.Some? && entry.value.key.Some?
  }

  predicate KeyedAndTrimmed(entries: seq<Option<Entry>>)
  {
    forall entry | entry in entries :: entry.Some? && entry.value.key.Some? && IsTrimmedNonemptyText(entry.value.value)
  }

  lemma {:induction false} FilterMapMembers<T>(f: T -> Option<T>, items: seq<T>, result: T)
    requires result in FilterMap(f, items)
    ensures exists item :: item in items && f(item) == Some(result)
  {
    var n := |items| - 1;
    if f(items[n]) == Some(result) {
      assert items[n] in items;
    } else {
      FilterMapMembers(f, items[..n], result);
      var item :| item in items[..n] && f(item) == Some(result);
      assert item in items;
    }
  }

  lemma {:induction false} FilterMapStays<T>(f: T -> Option<T>, items: seq<T>)
    requires forall item :: item in items ==> f(item) == Some(item)
    ensures FilterMap(f, items) == items
  {
    if items != [] {
      var n := |items| - 1;
      var before, last := items[..n], items[n];
      FilterMapStays(f, before);
      assert last in items;
      assert items == before + [last];
    }
  }

  lemma CanonicalEntryMeaning(item: Option<Entry>)
    ensures CanonicalEntry(item).Some? ==> KeyedAndTrimmed([CanonicalEntry(item).value])
    ensures CanonicalEntry(item) == Some(item) <==> KeyedAndTrimmed([item])
  {
    assert [item][0] == item;
  }

  /** Canonical entries are keyed and trimmed, and a list of such entries is its own canonical form. */
  lemma CanonicalEntriesMeaning(entries: seq<Option<Entry>>)
    ensures KeyedAndTrimmed(CanonicalEntries(entries))
    ensures CanonicalEntries(entries) == entries <==> KeyedAndTrimmed(entries)
  {
    forall entry | entry in CanonicalEntries(entries)
      ensures KeyedAndTrimmed([entry])
    {
      FilterMapMembers(CanonicalEntry, entries, entry);
      var item :| item in entries && CanonicalEntry(item) == Some(entry);
      CanonicalEntryMeaning(item);
    }
    forall entry | entry in CanonicalEntries(entries)
      ensures entry.Some? && entry.value.key.Some? && IsTrimmedNonemptyText(entry.value.value)
    {
      assert entry in [entry];
    }
    if KeyedAndTrimmed(entries) {
      forall item | item in entries
        ensures CanonicalEntry(item) == Some(item)
      {
        CanonicalEntryMeaning(item);
      }
      FilterMapStays(CanonicalEntry, entries);
    }
  }

  lemma ValidValuesMeaning(text: Text)
    ensures ValidLocalizedValues(text.localized).Some? && HasKeys(text)
       <==> text.localized.None? || KeyedAndTrimmed(text.localized.value)
    ensures ValidLocalizedValues(text.localized).Some? ==>
              |ValidLocalizedValues(text.localized).value| == if text.localized.None? then 0 else |text.localized.value|
  {
    if text.localized.Some? {
      var entries := text.localized.value;
      var values := LocalizedValues(text.localized);
      if values.Some? {
        assert forall i :: 0 <= i < |entries| ==> values.value[i] in values.value && entries[i] in entries;
      }
    }
  }

  /** A row needs no repair exactly when it satisfies the final contract and all its entries have keys. */
  lemma CleanRowMeaning(row: StoredRow)
    ensures !RequiresMigration(row) <==> HasSuccessfulText(row.text) && HasKeys(row.text)
  {
    var text, canonical := row.text, CanonicalText(row.text);
    CanonicalEntriesMeaning(if text.localized.Some? then text.localized.value else []);
    ValidValuesMeaning(text);
    ValidValuesMeaning(canonical);
  }

  /** The row is its own canonical form. */
  predicate Settled(row: StoredRow)
  {
    CanonicalRow(row) == Some(row) && !RequiresMigration(row)
  }

  lemma CanonicalRowIsSettled(row: StoredRow)
    requires CanonicalRow(row).Some?
    ensures Settled(CanonicalRow(row).value)
  {
    CanonicalEntriesMeaning(if row.text.localized.Some? then row.text.localized.value else []);
    CanonicalEntriesMeaning(CanonicalLocalized(row.text.localized));
    assert CanonicalText(CanonicalText(row.text)) == CanonicalText(row.text);
  }

  /** Repaired rows are clean and repair to themselves. */
  lemma RepairIsIdempotent(rows: seq<StoredRow>)
    ensures Clean(RepairedRows(rows)) && RepairedRows(RepairedRows(rows)) == RepairedRows(rows)
  {
    forall row | row in RepairedRows(rows)
      ensures Settled(row)
    {
      FilterMapMembers(CanonicalRow, rows, row);
      var item :| item in rows && CanonicalRow(item) == Some(row);
      CanonicalRowIsSettled(item);
    }
    FilterMapStays(CanonicalRow, RepairedRows(rows));
  }

  /* ------------------------------------------------------ what a repair is */

  /** `positions` tells, in order, where the items satisfy `has`. */
  ghost predicate Positions<T>(positions: seq<nat>, items: seq<T>, has: T -> bool)
  {
    && (forall k | 0 <= k < |positions| :: positions[k] < |items| && has(items[positions[k]]))
    && (forall k, l | 0 <= k < l < |positions| :: positions[k] < positions[l])
    && (forall i: nat | i < |items| && has(items[i]) :: i in positions)
  }

  /** The results come, one by one and in order, from the items that satisfy `has`. */
  ghost predicate Selected<T(!new)>(items: seq<T>, results: seq<T>, has: T -> bool, becomes: (T, T) -> bool)
  {
    exists positions: seq<nat> ::
      && Positions(positions, items, has) && |results| == |positions|
      && forall k :: 0 <= k < |positions| ==> becomes(items[positions[k]], results[k])
  }

  lemma PositionsNext<T>(positions: seq<nat>, items: seq<T>, has: T -> bool)
    requires items != [] && Positions(positions, items[..|items| - 1], has)
    ensures Positions(positions + if has(items[|items| - 1]) then [|items| - 1] else [], items, has)
  {
    var n := |items| - 1;
    var before := items[..n];
    assert forall i: nat | i < n :: before[i] == items[i];
    forall k | 0 <= k < |positions|
      ensures positions[k] < n && has(items[positions[k]])
    {
      assert positions[k] < |before|;
    }
    forall i: nat | i < n && has(items[i])
      ensures i in positions
    {
      assert has(before[i]);
    }
  }

  lemma {:induction false} FilterMapSelects<T(!new)>(
    f: T -> Option<T>, items: seq<T>, has: T -> bool, becomes: (T, T) -> bool)
    returns (positions: seq<nat>)
    requires forall item :: f(item).Some? <==> has(item)
    requires forall item :: f(item).Some? ==> becomes(item, f(item).value)
    ensures Positions(positions, items, has) && |FilterMap(f, items)| == |positions|
    ensures forall k :: 0 <= k < |positions| ==> becomes(items[positions[k]], FilterMap(f, items)[k])
  {
    if items == [] {
      positions := [];
    } else {
      var n := |items| - 1;
      var before := FilterMapSelects(f, items[..n], has, becomes);
      PositionsNext(before, items, has);
      positions := before + if has(items[n]) then [n] else [];
      forall k | 0 <= k < |before|
        ensures becomes(items[before[k]], FilterMap(f, items)[k])
      {
        assert items[..n][before[k]] == items[before[k]] && FilterMap(f, items)[k] == FilterMap(f, items[..n])[k];
      }
    }
  }

  /** The entry has a key and a value that is not blank. */
  predicate EntryHasText(entry: Option<Entry>)
  {
    entry.Some? && entry.value.key.Some? && entry.value.value.Some? && !Blank(entry.value.value.value)
  }

  /** The key stays, and the value loses the white space at its ends. */
  ghost predicate EntryTrimmed(before: Option<Entry>, after: Option<Entry>)
  {
    && before.Some? && after.Some? && after.value.key == before.value.key
    && before.value.value.Some? && after.value.value.Some?
    && IsCoreOf(after.value.value.value, before.value.value.value)
  }

  function EntriesOf(text: Text): seq<Option<Entry>>
  {
    if text.localized.None? then [] else text.localized.value
  }

  /** The description or an entry carries text. */
  predicate RowHasText(row: StoredRow)
  {
    || (row.text.description.Some? && !Blank(row.text.description.value))
    || exists entry :: entry in EntriesOf(row.text) && EntryHasText(entry)
  }

  /** The other columns stay, the description is trimmed, or null when blank, and the entries with text stay in
      order, each under its key with its value trimmed. */
  ghost predicate RowTrimmed(before: StoredRow, after: StoredRow)
  {
    && after.rest == before.rest
    && (after.text.description.Some? <==> before.text.description.Some? && !Blank(before.text.description.value))
    && (after.text.description.Some? ==> IsCoreOf(after.text.description.value, before.text.description.value))
    && after.text.localized.Some?
    && Selected(EntriesOf(before.text), after.text.localized.value, EntryHasText, (a, b) => EntryTrimmed(a, b))
  }

  lemma CanonicalEntryTrims(entry: Option<Entry>)
    ensures CanonicalEntry(entry).Some? <==> EntryHasText(entry)
    ensures CanonicalEntry(entry).Some? ==> EntryTrimmed(entry, CanonicalEntry(entry).value)
  {
    if entry.Some? && entry.value.value.Some? {
      TrimmedNonemptyTextMeaning(entry.value.value.value);
    }
  }

  lemma CanonicalEntriesTrim(entries: seq<Option<Entry>>)
    ensures Selected(entries, CanonicalEntries(entries), EntryHasText, (a, b) => EntryTrimmed(a, b))
    ensures CanonicalEntries(entries) != [] <==> exists entry :: entry in entries && EntryHasText(entry)
  {
    forall entry: Option<Entry>
      ensures CanonicalEntry(entry).Some? <==> EntryHasText(entry)
      ensures CanonicalEntry(entry).Some? ==> EntryTrimmed(entry, CanonicalEntry(entry).value)
    {
      CanonicalEntryTrims(entry);
    }
    var positions := FilterMapSelects(CanonicalEntry, entries, EntryHasText, (a, b) => EntryTrimmed(a, b));
    if positions != [] {
      assert entries[positions[0]] in entries;
    }
  }

  lemma CanonicalTextIsSuccessful(text: Text)
    ensures HasSuccessfulText(CanonicalText(text))
       <==> TrimmedNonemptyText(text.description).Some? || CanonicalLocalized(text.localized) != []
  {
    CanonicalEntriesMeaning(EntriesOf(text));
    ValidValuesMeaning(CanonicalText(text));
  }

  lemma DescriptionIsTrimmed(description: Option<string>)
    ensures TrimmedNonemptyText(description).Some? <==> description.Some? && !Blank(description.value)
    ensures TrimmedNonemptyText(description).Some? ==>
              IsCoreOf(TrimmedNonemptyText(description).value, description.value)
  {
    if description.Some? {
      TrimmedNonemptyTextMeaning(description.value);
    }
  }

  /** A repair drops a row exactly when nothing in it carries text, and otherwise trims it. */
  lemma CanonicalRowTrims(row: StoredRow)
    ensures CanonicalRow(row).Some? <==> RowHasText(row)
    ensures CanonicalRow(row).Some? ==> RowTrimmed(row, CanonicalRow(row).value)
  {
    assert CanonicalLocalized(row.text.localized) == CanonicalEntries(EntriesOf(row.text));
    DescriptionIsTrimmed(row.text.description);
    CanonicalEntriesTrim(EntriesOf(row.text));
    CanonicalTextIsSuccessful(row.text);
  }

  /** The repaired rows are, in order, the rows with text, each trimmed. */
  lemma RepairTrimsEveryRow(rows: seq<StoredRow>)
    ensures Selected(rows, RepairedRows(rows), RowHasText, (a, b) => RowTrimmed(a, b))
  {
    forall row: StoredRow
      ensures CanonicalRow(row).Some? <==> RowHasText(row)
      ensures CanonicalRow(row).Some? ==> RowTrimmed(row, CanonicalRow(row).value)
    {
      CanonicalRowTrims(row);
    }
    var positions := FilterMapSelects(CanonicalRow, rows, RowHasText, (a, b) => RowTrimmed(a, b));
  }

  /* ------------------------------------------------------------------ one run */

  function RepairedParquet(parquet: Parquet, geo: GeoBlock): Parquet
  {
    var rows := RepairedRows(parquet.rows);
    Parquet(rows, if DroppedRows(parquet.rows) == 0 then parquet.geo else geo(rows))
  }

  /** The manifest that describes the Parquet after `dropped` rows were dropped. */
  function RepairedManifest(manifest: Manifest, parquet: Parquet, dropped: nat): Manifest
  {
    var counts := manifest.counts;
    manifest.(output := Sha256(parquet),
              counts := counts.(included := counts.included - dropped,
                                rejections := Filed(counts.rejections, REJECTION_REASON, dropped)))
  }

  /** The disks that one run passes through, and how many artifacts it reports as changed. */
  datatype Outcome = Outcome(disks: seq<Disk>, changed: Result<nat, Error>)

  function Heal(disk: Disk): Outcome
  {
    var rows, recorded := |disk.parquet.rows|, disk.manifest.counts.included;
    if recorded < 0 then Outcome([], Err(InvalidManifest))
    else if disk.manifest.output == Sha256(disk.parquet) && recorded == rows then Outcome([], Ok(0))
    else if rows > recorded then Outcome([], Err(MoreRowsThanRecorded))
    else Outcome([disk.(manifest := RepairedManifest(disk.manifest, disk.parquet, recorded - rows))], Ok(1))
  }

  /** Promote the repaired Parquet, then write its manifest. */
  function Repair(disk: Disk, repaired: Parquet, dropped: nat): Outcome
  {
    var promoted := disk.(parquet := repaired);
    if disk.manifest.counts.included < 0 then Outcome([promoted], Err(InvalidManifest))
    else Outcome([promoted, promoted.(manifest := RepairedManifest(disk.manifest, repaired, dropped))], Ok(1))
  }

  function Migrate(disk: Disk, geo: GeoBlock): Outcome
  {
    if Clean(disk.parquet.rows) then Heal(disk)
    else Repair(disk, RepairedParquet(disk.parquet, geo), DroppedRows(disk.parquet.rows))
  }

  /** The disk after the first `reached` steps. */
  function Reached(disk: Disk, disks: seq<Disk>, reached: nat): Disk
  {
    if disks == [] || reached == 0 then disk else disks[(if reached <= |disks| then reached else |disks|) - 1]
  }

  /** The disk after a run that nothing interrupts. */
  function After(disk: Disk, geo: GeoBlock): Disk
  {
    Reached(disk, Migrate(disk, geo).disks, 2)
  }

  /* ---------------------------------------------------------- runs and kills */

  /** The disk after runs that were killed, each after some number of steps. */
  function AfterKills(disk: Disk, geo: GeoBlock, kills: seq<nat>): Disk
  {
    if kills == [] then disk
    else
      var before := AfterKills(disk, geo, kills[..|kills| - 1]);
      Reached(before, Migrate(before, geo).disks, kills[|kills| - 1])
  }

  /** The manifest's row count matches its Parquet. */
  predicate Matched(disk: Disk)
  {
    disk.manifest.counts.included == |disk.parquet.rows|
  }

  /** The manifest records at least the rows that there are. */
  predicate Recorded(disk: Disk)
  {
    disk.manifest.counts.included >= |disk.parquet.rows|
  }

  /** The manifest accounts for every emitted feature. */
  ghost predicate Balanced(counts: RunCounts)
  {
    counts.emitted == counts.included + SumOf(counts.rejections)
  }

  /** What is to become of the Parquet, and how many rows that drops. */
  function TargetParquet(disk: Disk, geo: GeoBlock): Parquet
  {
    if Clean(disk.parquet.rows) then disk.parquet else RepairedParquet(disk.parquet, geo)
  }

  function TargetDrops(disk: Disk): nat
  {
    if Clean(disk.parquet.rows) then 0 else DroppedRows(disk.parquet.rows)
  }

  /** The Parquet with a manifest that describes it: the rows that it has, and all others that were
      recorded filed under the one reason. */
  function Described(parquet: Parquet, manifest: Manifest): Disk
    requires manifest.counts.included >= |parquet.rows|
  {
    var counts := manifest.counts;
    Disk(parquet,
         manifest.(output := Sha256(parquet),
                   counts := RunCounts(counts.emitted, |parquet.rows|,
                                       Filed(counts.rejections, REJECTION_REASON, counts.included - |parquet.rows|))))
  }

  lemma TargetIsClean(disk: Disk, geo: GeoBlock)
    ensures Clean(TargetParquet(disk, geo).rows)
    ensures |TargetParquet(disk, geo).rows| + TargetDrops(disk) == |disk.parquet.rows|
  {
    RepairIsIdempotent(disk.parquet.rows);
  }

  /** The repaired artifact. */
  function Target(disk: Disk, geo: GeoBlock): Disk
    requires Recorded(disk)
  {
    TargetIsClean(disk, geo);
    Described(TargetParquet(disk, geo), disk.manifest)
  }

  /** The Parquet promoted, and nothing else done. */
  function Promoted(disk: Disk, geo: GeoBlock): Disk
  {
    disk.(parquet := TargetParquet(disk, geo))
  }

  /** What one whole repair writes: the rows that it dropped are filed, a gap that was there before is not. */
  function Rewritten(disk: Disk, geo: GeoBlock): Disk
  {
    var parquet := TargetParquet(disk, geo);
    Disk(parquet, RepairedManifest(disk.manifest, parquet, TargetDrops(disk)))
  }

  /** The artifact as it was, with only its Parquet repaired, rewritten, or settled. */
  predicate UnderRepair(start: Disk, disk: Disk, geo: GeoBlock)
    requires Recorded(start)
  {
    disk == start || disk == Promoted(start, geo) || disk == Rewritten(start, geo) || disk == Target(start, geo)
  }

  /** Healing files the gap between recorded and actual rows, and leaves a described artifact alone. */
  lemma HealFillsTheGap(disk: Disk)
    requires Recorded(disk)
    ensures var target := Described(disk.parquet, disk.manifest);
            && Heal(disk).changed == Ok(if disk == target then 0 else 1)
            && (Heal(disk).disks == [target] || (Heal(disk).disks == [] && disk == target))
            && Heal(target) == Outcome([], Ok(0))
  {
  }

  /** A gap may be filed in two steps. */
  lemma RewrittenIsOnItsWay(start: Disk, geo: GeoBlock)
    requires Recorded(start)
    ensures Recorded(Rewritten(start, geo))
    ensures Described(TargetParquet(start, geo), Rewritten(start, geo).manifest) == Target(start, geo)
    ensures Matched(start) ==> Rewritten(start, geo) == Target(start, geo)
  {
    TargetIsClean(start, geo);
    GapInTwoSteps(start.manifest, TargetParquet(start, geo), TargetDrops(start));
  }

  lemma GapInTwoSteps(manifest: Manifest, parquet: Parquet, drops: nat)
    requires manifest.counts.included >= |parquet.rows| + drops
    ensures var rewritten := RepairedManifest(manifest, parquet, drops);
            && rewritten.counts.included >= |parquet.rows|
            && Described(parquet, rewritten) == Described(parquet, manifest)
            && (manifest.counts.included == |parquet.rows| + drops ==>
                  Disk(parquet, rewritten) == Described(parquet, manifest))
  {
    var counts := manifest.counts;
    FiledTwice(counts.rejections, REJECTION_REASON, drops, counts.included - drops - |parquet.rows|);
  }

  lemma RepairWritesBoth(start: Disk, geo: GeoBlock)
    requires Recorded(start) && !Clean(start.parquet.rows)
    ensures Migrate(start, geo) == Outcome([Promoted(start, geo), Rewritten(start, geo)], Ok(1))
  {
  }

  /** From each of these a whole run succeeds and two of them end at the target, one already when
      nothing was amiss with the manifest at the start; a killed run ends at another of these. */
  lemma RunFromUnderRepair(start: Disk, disk: Disk, geo: GeoBlock, reached: nat)
    requires Recorded(start) && UnderRepair(start, disk, geo)
    ensures Migrate(disk, geo).changed.Ok?
    ensures After(disk, geo) == Target(start, geo) || After(disk, geo) == Rewritten(start, geo)
    ensures Matched(start) ==> After(disk, geo) == Target(start, geo)
    ensures UnderRepair(start, Reached(disk, Migrate(disk, geo).disks, reached), geo)
  {
    TargetIsClean(start, geo);
    RewrittenIsOnItsWay(start, geo);
    if disk == start && !Clean(start.parquet.rows) {
      RepairWritesBoth(start, geo);
    } else {
      HealFillsTheGap(disk);
    }
  }

  lemma SecondRunSettles(start: Disk, disk: Disk, geo: GeoBlock)
    requires Recorded(start) && (disk == Target(start, geo) || disk == Rewritten(start, geo))
    ensures Migrate(disk, geo).changed.Ok? && After(disk, geo) == Target(start, geo)
  {
    TargetIsClean(start, geo);
    RewrittenIsOnItsWay(start, geo);
    HealFillsTheGap(disk);
  }

  lemma {:induction false} KillsLeaveItUnderRepair(start: Disk, geo: GeoBlock, kills: seq<nat>)
    requires Recorded(start)
    ensures UnderRepair(start, AfterKills(start, geo, kills), geo)
  {
    if kills != [] {
      var n := |kills| - 1;
      KillsLeaveItUnderRepair(start, geo, kills[..n]);
      RunFromUnderRepair(start, AfterKills(start, geo, kills[..n]), geo, kills[n]);
    }
  }

  /** Whatever kills came before, whole runs end with the Parquet and manifest that they end with
      without kills: one of them when the manifest matched at the start, and two in any case. */
  lemma KilledRepairsConverge(start: Disk, geo: GeoBlock, kills: seq<nat>)
    requires Recorded(start)
    ensures var killed := AfterKills(start, geo, kills);
            && Migrate(killed, geo).changed.Ok?
            && (Matched(start) ==> After(killed, geo) == After(start, geo) == Target(start, geo))
            && After(After(killed, geo), geo) == After(After(start, geo), geo) == Target(start, geo)
  {
    var killed := AfterKills(start, geo, kills);
    KillsLeaveItUnderRepair(start, geo, kills);
    RunFromUnderRepair(start, killed, geo, 0);
    RunFromUnderRepair(start, start, geo, 0);
    SecondRunSettles(start, After(killed, geo), geo);
    SecondRunSettles(start, After(start, geo), geo);
  }

  /** The repaired artifact is clean, its manifest describes it and still accounts for every emitted
      feature, with the rows that are gone filed under the one reason, and a further run changes nothing. */
  lemma RepairedArtifactIsSettled(start: Disk, geo: GeoBlock)
    requires Recorded(start)
    ensures var target := Target(start, geo);
            && Clean(target.parquet.rows) && Matched(target) && target.manifest.output == Sha256(target.parquet)
            && Migrate(target, geo) == Outcome([], Ok(0))
            && (Balanced(start.manifest.counts) ==> Balanced(target.manifest.counts))
            && target.manifest.rest == start.manifest.rest
            && (forall reason ::
                  CountOf(target.manifest.counts.rejections, reason)
                  == CountOf(start.manifest.counts.rejections, reason)
                   + if reason == "no_nonempty_description"
                     then start.manifest.counts.included - |target.parquet.rows| else 0)
  {
    var counts, parquet := start.manifest.counts, TargetParquet(start, geo);
    TargetIsClean(start, geo);
    HealFillsTheGap(Promoted(start, geo));
    forall reason
      ensures CountOf(Target(start, geo).manifest.counts.rejections, reason)
           == CountOf(counts.rejections, reason)
            + if reason == REJECTION_REASON then counts.included - |parquet.rows| else 0
    {
      FiledCounts(counts.rejections, REJECTION_REASON, counts.included - |parquet.rows|, reason);
    }
    FiledSum(counts.rejections, REJECTION_REASON, counts.included - |parquet.rows|);
  }

  lemma CleanRunSettles(disk: Disk, geo: GeoBlock)
    requires Clean(disk.parquet.rows)
    ensures if disk.manifest.counts.included >= |disk.parquet.rows|
            then Migrate(After(disk, geo), geo) == Outcome([], Ok(0))
            else After(disk, geo) == disk && Migrate(disk, geo).disks == [] && Migrate(disk, geo).changed.Err?
  {
    var parquet, recorded := disk.parquet, disk.manifest.counts.included;
    if recorded >= |parquet.rows| {
      assert After(disk, geo).parquet == parquet;
    }
  }

  lemma FirstRunKeepsTheGap(disk: Disk, geo: GeoBlock)
    ensures var after := After(disk, geo);
            && Clean(after.parquet.rows)
            && (after.manifest.counts.included >= |after.parquet.rows|
                <==> disk.manifest.counts.included >= |disk.parquet.rows|)
  {
    TargetIsClean(disk, geo);
    assert After(disk, geo).parquet == TargetParquet(disk, geo);
  }

  /** Repairs come to rest exactly when the manifest does not record fewer rows than there are;
      otherwise every run from the second on is refused and changes nothing. */
  lemma RepairSettlesExactlyWhenRowsAreRecorded(disk: Disk, geo: GeoBlock)
    ensures var later := After(After(disk, geo), geo);
            if disk.manifest.counts.included >= |disk.parquet.rows|
            then Migrate(later, geo) == Outcome([], Ok(0))
            else later == After(disk, geo) && Migrate(later, geo).disks == [] && Migrate(later, geo).changed.Err?
  {
    FirstRunKeepsTheGap(disk, geo);
    CleanRunSettles(After(disk, geo), geo);
  }

  /** A run refuses and writes nothing if and only if the text is clean and the manifest records
      fewer rows than there are; with text to repair it writes first, both files when the manifest
      can be read and else the Parquet. */
  lemma RefusalExactlyOnCleanText(disk: Disk, geo: GeoBlock)
    ensures Migrate(disk, geo).changed.Err? && Migrate(disk, geo).disks == []
       <==> Clean(disk.parquet.rows) && !Recorded(disk)
    ensures !Clean(disk.parquet.rows) ==>
              if disk.manifest.counts.included >= 0
              then Migrate(disk, geo) == Outcome([Promoted(disk, geo), Rewritten(disk, geo)], Ok(1))
              else Migrate(disk, geo) == Outcome([Promoted(disk, geo)], Err(InvalidManifest))
    ensures Migrate(disk, geo).changed == Err(InvalidManifest) <==> disk.manifest.counts.included < 0
  {
  }

  /** The block is made from the columns that a repair does not touch. */
  ghost predicate IgnoresText(geo: GeoBlock)
  {
    forall a: seq<StoredRow>, b: seq<StoredRow> ::
      |a| == |b| && (forall i :: 0 <= i < |a| ==> a[i].rest == b[i].rest) ==> geo(a) == geo(b)
  }

  lemma {:induction false} NothingDroppedKeepsRests(rows: seq<StoredRow>)
    requires DroppedRows(rows) == 0
    ensures |RepairedRows(rows)| == |rows|
    ensures forall i :: 0 <= i < |rows| ==> RepairedRows(rows)[i].rest == rows[i].rest
  {
    if rows != [] {
      NothingDroppedKeepsRests(rows[..|rows| - 1]);
    }
  }

  /** A block that describes the rows of a Parquet describes those that a repair leaves, and is not
      touched when they are all left. */
  lemma RepairKeepsGeoBlock(parquet: Parquet, geo: GeoBlock)
    requires IgnoresText(geo) && parquet.geo == geo(parquet.rows)
    ensures var repaired := RepairedParquet(parquet, geo);
            repaired.geo == geo(repaired.rows) && (DroppedRows(parquet.rows) == 0 ==> repaired.geo == parquet.geo)
  {
    if DroppedRows(parquet.rows) == 0 {
      NothingDroppedKeepsRests(parquet.rows);
    }
  }

  /** An artifact that is rewritten although its manifest records fewer rows than there are: one row
      without any text, and none recorded. */
  lemma UntidyArtifactIsWrittenFirst(geo: GeoBlock)
    ensures var parquet := Parquet([StoredRow(Text(None, None), "")], "");
            var disk := Disk(parquet, Manifest(Sha256(parquet), RunCounts(0, 0, map[]), ""));
            && !Recorded(disk) && Migrate(disk, geo) == Outcome([Promoted(disk, geo), Rewritten(disk, geo)], Ok(1))
            && Migrate(After(disk, geo), geo).changed.Err?
  {
    var row := StoredRow(Text(None, None), "");
    var parquet := Parquet([row], "");
    var disk := Disk(parquet, Manifest(Sha256(parquet), RunCounts(0, 0, map[]), ""));
    assert CanonicalRow(row).None?;
    assert row in parquet.rows && RequiresMigration(row);
    RefusalExactlyOnCleanText(disk, geo);
    RepairSettlesExactlyWhenRowsAreRecorded(disk, geo);
    FirstRunKeepsTheGap(disk, geo);
  }

  /* --------------------------------------------------------------- the program */

  class Artifact {
    var parquet: Parquet
    var manifest: Manifest
    ghost var journal: seq<Disk>

    ghost function Now(): Disk
      reads this
    {
      Disk(parquet, manifest)
    }

    constructor (parquet: Parquet, manifest: Manifest)
      ensures Now() == Disk(parquet, manifest) && journal == []
    {
      this.parquet, this.manifest, this.journal := parquet, manifest, [];
    }

    method Promote(repaired: Parquet)
      modifies this
      ensures Now() == Disk(repaired, old(manifest)) && journal == old(journal) + [Now()]
    {
      parquet, journal := repaired, journal + [Disk(repaired, manifest)];
    }

    method WriteManifest(repaired: Manifest)
      modifies this
      ensures Now() == Disk(old(parquet), repaired) && journal == old(journal) + [Now()]
    {
      manifest, journal := repaired, journal + [Disk(parquet, repaired)];
    }

    method MigrateOneArtifact(geo: GeoBlock) returns (changed: Result<nat, Error>)
      modifies this
      ensures changed == Migrate(old(Now()), geo).changed
      ensures Now() == After(old(Now()), geo)
      ensures journal == old(journal) + Migrate(old(Now()), geo).disks
    {
      var required := RequiresTextMigration(parquet.rows);
      if !required {
        changed := HealInterruptedRepair();
        return;
      }
      var rows, dropped := CanonicalTable(parquet.rows);
      Promote(Parquet(rows, if dropped == 0 then parquet.geo else geo(rows)));
      if manifest.counts.included < 0 {
        return Err(InvalidManifest);
      }
      WriteManifest(RepairedManifest(manifest, parquet, dropped));
      changed := Ok(1);
    }

    /** Bring a manifest left behind by an interrupted run up to date. */
    method HealInterruptedRepair() returns (changed: Result<nat, Error>)
      modifies this
      ensures changed == Heal(old(Now())).changed
      ensures Now() == Reached(old(Now()), Heal(old(Now())).disks, 2)
      ensures journal == old(journal) + Heal(old(Now())).disks
    {
      var rows, recorded := |parquet.rows|, manifest.counts.included;
      if recorded < 0 {
        return Err(InvalidManifest);
      }
      if manifest.output == Sha256(parquet) && recorded == rows {
        return Ok(0);
      }
      if rows > recorded {
        return Err(MoreRowsThanRecorded);
      }
      WriteManifest(RepairedManifest(manifest, parquet, recorded - rows));
      changed := Ok(1);
    }
  }

  method RequiresTextMigration(rows: seq<StoredRow>) returns (required: bool)
    ensures required <==> !Clean(rows)
  {
    for i := 0 to |rows|
      invariant forall k :: 0 <= k < i ==> !RequiresMigration(rows[k])
    {
      var canonical := CanonicalRow(rows[i]);
      if canonical.None? || RowChanged(rows[i], canonical.value) {
        assert RequiresMigration(rows[i]) && rows[i] in rows;
        return true;
      }
    }
    return false;
  }

  /** The canonical text columns, one value for each row. */
  method TextColumns(rows: seq<StoredRow>) returns (texts: seq<Text>)
    ensures |texts| == |rows| && forall i :: 0 <= i < |rows| ==> texts[i] == CanonicalText(rows[i].text)
  {
    texts := [];
    for i := 0 to |rows|
      invariant |texts| == i && forall k :: 0 <= k < i ==> texts[k] == CanonicalText(rows[k].text)
    {
      texts := texts + [CanonicalText(rows[i].text)];
    }
  }

  /** The repaired rows, and how many were dropped. */
  method CanonicalTable(rows: seq<StoredRow>) returns (repaired: seq<StoredRow>, dropped: nat)
    ensures repaired == RepairedRows(rows) && dropped == DroppedRows(rows)
  {
    var texts := TextColumns(rows);
    repaired, dropped := [], 0;
    for i := 0 to |rows|
      invariant repaired == RepairedRows(rows[..i]) && dropped == DroppedRows(rows[..i])
    {
      assert rows[..i + 1][..i] == rows[..i];
      if HasSuccessfulText(texts[i]) {
        repaired := repaired + [rows[i].(text := texts[i])];
      } else {
        dropped := dropped + 1;
      }
    }
    assert rows[..|rows|] == rows;
  }
}
