/** The numbers that a deduplication pass records and reports.

    Main results: after any kills the record counts the rows that went in and the rows that
    stay, the latter exactly unless some file holds fewer rows than its source has canonical
    rows; and every invocation reports those numbers and the files that changed.
 */
module DeduplicationRecords {
  import opened Wrappers
  import opened CanonicalRows
  import opened Dataset
  import opened SortedText
  import opened Staging
  import opened SharedSources
  import opened Deduplication

  /* ------------------------------------------------------------ counting rows */

  /** All rows of the files with these names, each by its file and position. */
  function RowPlaces(files: Files, names: set<Name>): set<(Name, nat)>
  {
    set name, i: nat | name in names && i < |Rows(files, name)| :: (name, i)
  }

  /** How many rows all files hold. */
  function RowCount(files: Files): nat
  {
    |RowPlaces(files, Names(files))|
  }

  function Elements<T>(items: seq<T>): set<T>
  {
    set item | item in items
  }

  lemma {:induction false} PlacesOfFile(files: Files, name: Name, n: nat)
    ensures |set i: nat | i < n :: (name, i)| == n
  {
    if n > 0 {
      PlacesOfFile(files, name, n - 1);
      assert (set i: nat | i < n :: (name, i)) == (set i: nat | i < n - 1 :: (name, i)) + {(name, (n - 1) as nat)};
    } else {
      assert (set i: nat | i < n :: (name, i)) == {};
    }
  }

  lemma {:induction false} CurrentRowsCountPlaces(files: Files, names: seq<Name>)
    requires forall i, j :: 0 <= i < j < |names| ==> names[i] != names[j]
    ensures CurrentRows(files, names) == |RowPlaces(files, Elements(names))|
  {
    if names == [] {
      assert RowPlaces(files, Elements(names)) == {};
    } else {
      var name, rest := names[0], names[1..];
      CurrentRowsCountPlaces(files, rest);
      var here := set i: nat | i < |Rows(files, name)| :: (name, i);
      PlacesOfFile(files, name, |Rows(files, name)|);
      assert Elements(names) == {name} + Elements(rest) && name !in Elements(rest);
      assert RowPlaces(files, Elements(names)) == here + RowPlaces(files, Elements(rest));
      assert here !! RowPlaces(files, Elements(rest));
    }
  }

  lemma CurrentRowsCount(files: Files)
    ensures CurrentRows(files, Sorted(Names(files))) == RowCount(files)
  {
    CurrentRowsCountPlaces(files, Sorted(Names(files)));
    assert Elements(Sorted(Names(files))) == Names(files);
  }

  /** The file holds fewer rows than there are canonical rows of its manifest's source. */
  predicate HoldsTooFew(fp: Fingerprint, files: Files, name: Name)
    requires HasManifest(files, name)
  {
    |Rows(files, name)| < |Selection(fp, files, ManifestOf(files, name).source)|
  }

  lemma CountedForFile(fp: Fingerprint, files: Files, name: Name)
    requires Injective(fp) && Validated(files) && name in Names(files)
    ensures var counted, there := |Selection(fp, files, ManifestOf(files, name).source)|,
                                  |Rows(Promoted(fp, files), name)|;
            counted >= there && (counted == there <==> !HoldsTooFew(fp, files, name))
  {
    assert ValidPair(files, name);
    PromotedAt(fp, files, name);
    if StageSource(fp, files, name) != [] {
      StagedRows(fp, files, name);
    }
  }

  ghost predicate SomeHoldsTooFew(fp: Fingerprint, files: Files, names: seq<Name>)
    requires AllHaveManifests(files, names)
  {
    exists name :: name in names && HoldsTooFew(fp, files, name)
  }

  lemma FirstOrLaterHoldsTooFew(fp: Fingerprint, files: Files, names: seq<Name>)
    requires AllHaveManifests(files, names) && names != []
    ensures SomeHoldsTooFew(fp, files, names)
       <==> HoldsTooFew(fp, files, names[0]) || SomeHoldsTooFew(fp, files, names[1..])
  {
    assert forall name :: name in names <==> name == names[0] || name in names[1..];
  }

  /** Rows are counted as staying although they are not there exactly for files that hold too few. */
  lemma {:induction false} OutputRowsCountPromoted(fp: Fingerprint, files: Files, names: seq<Name>)
    requires Injective(fp) && Validated(files) && forall name :: name in names ==> name in Names(files)
    requires AllHaveManifests(files, names)
    ensures OutputRows(fp, files, names) >= CurrentRows(Promoted(fp, files), names)
    ensures OutputRows(fp, files, names) == CurrentRows(Promoted(fp, files), names)
       <==> !SomeHoldsTooFew(fp, files, names)
  {
    if names != [] {
      OutputRowsCountPromoted(fp, files, names[1..]);
      CountedForFile(fp, files, names[0]);
      FirstOrLaterHoldsTooFew(fp, files, names);
    }
  }

  /* ------------------------------------------------------------ changed files */

  /** The files whose rows are not what they were. */
  function ChangedFiles(before: Files, after: Files): set<Name>
  {
    set name | name in Names(before) && Rows(before, name) != Rows(after, name)
  }

  lemma StagedExactlyWhenChanged(fp: Fingerprint, files: Files, name: Name)
    requires Injective(fp) && Validated(files) && name in Names(files)
    ensures StageSource(fp, files, name) != [] <==> name in ChangedFiles(files, Promoted(fp, files))
  {
    PromotedAt(fp, files, name);
    assert ValidPair(files, name);
    if StageSource(fp, files, name) != [] {
      StagedRows(fp, files, name);
    }
  }

  function StagedNames(fp: Fingerprint, files: Files, names: seq<Name>): set<Name>
    requires Injective(fp) && AllHaveManifests(files, names)
  {
    set name | name in names && StageSource(fp, files, name) != []
  }

  lemma StagedNamesFirst(fp: Fingerprint, files: Files, names: seq<Name>)
    requires Injective(fp) && AllHaveManifests(files, names) && names != [] && names[0] !in names[1..]
    ensures |StagedNames(fp, files, names)|
         == |StageSource(fp, files, names[0])| + |StagedNames(fp, files, names[1..])|
  {
    var here := if StageSource(fp, files, names[0]) != [] then {names[0]} else {};
    assert forall name :: name in names <==> name == names[0] || name in names[1..];
    assert StagedNames(fp, files, names) == here + StagedNames(fp, files, names[1..]);
  }

  lemma {:induction false} ChangesAreCounted(fp: Fingerprint, files: Files, names: seq<Name>)
    requires Injective(fp) && AllHaveManifests(files, names)
    requires forall i, j :: 0 <= i < j < |names| ==> names[i] != names[j]
    ensures |StageChanges(fp, files, names)| == |StagedNames(fp, files, names)|
  {
    if names != [] {
      ChangesAreCounted(fp, files, names[1..]);
      StagedNamesFirst(fp, files, names);
    }
  }

  lemma {:induction false} EntriesAreStaged(staged: seq<StagedFile>)
    ensures |EntriesOf(staged)| == |staged|
    ensures forall i :: 0 <= i < |staged| ==>
              EntriesOf(staged)[i] == Entry(staged[i].name, Sha256(Parquet(staged[i].rows)),
                                            Sha256(ManifestText(staged[i].manifest)), staged[i].dropped)
  {
    if staged != [] {
      EntriesAreStaged(staged[1..]);
    }
  }

  /** The entry is what became of one file: how many rows it lost, and the digests of what stands there now. */
  ghost predicate EntryIsRight(before: Files, after: Files, entry: Entry)
  {
    && entry.name in ChangedFiles(before, after)
    && entry.duplicateRows == |Rows(before, entry.name)| - |Rows(after, entry.name)|
    && DataFile(entry.name) in after && entry.parquetDigest == Sha256(after[DataFile(entry.name)])
    && ManifestFile(entry.name) in after && entry.manifestDigest == Sha256(after[ManifestFile(entry.name)])
  }

  lemma EntryOfFile(fp: Fingerprint, files: Files, pair: StagedFile)
    requires Injective(fp) && Validated(files) && pair.name in Names(files)
    requires StageSource(fp, files, pair.name) == [pair]
    ensures EntryIsRight(files, Promoted(fp, files),
                         Entry(pair.name, Sha256(Parquet(pair.rows)), Sha256(ManifestText(pair.manifest)),
                               pair.dropped))
  {
    StagedExactlyWhenChanged(fp, files, pair.name);
    StagedRows(fp, files, pair.name);
    PromotedAt(fp, files, pair.name);
  }

  /** The entries are those of the changed files, one for each. */
  ghost predicate EntriesAreRight(before: Files, after: Files, entries: seq<Entry>)
  {
    && |entries| == |ChangedFiles(before, after)|
    && forall i :: 0 <= i < |entries| ==> EntryIsRight(before, after, entries[i])
  }

  lemma PlannedEntriesAreRight(fp: Fingerprint, files: Files)
    requires Injective(fp) && Validated(files)
    ensures EntriesAreRight(files, Promoted(fp, files), EntriesOf(Plan(fp, files)))
  {
    var names, plan := Sorted(Names(files)), Plan(fp, files);
    ChangesAreCounted(fp, files, names);
    ChangesAreConsistent(fp, files, names);
    EntriesAreStaged(plan);
    var staged := StagedNames(fp, files, names);
    forall name: Name
      ensures name in staged <==> name in ChangedFiles(files, Promoted(fp, files))
    {
      if name in Names(files) {
        StagedExactlyWhenChanged(fp, files, name);
      }
    }
    assert staged == ChangedFiles(files, Promoted(fp, files));
    forall i | 0 <= i < |plan|
      ensures EntryIsRight(files, Promoted(fp, files), EntriesOf(plan)[i])
    {
      assert plan[i] in plan;
      EntryOfFile(fp, files, plan[i]);
    }
  }

  /* --------------------------------------------------------- record and report */

  /** No file holds fewer rows than its source has canonical rows. */
  ghost predicate NoneHoldsTooFew(fp: Fingerprint, files: Files)
    requires Validated(files)
  {
    forall name :: name in Names(files) ==> !HoldsTooFew(fp, files, name)
  }

  /** The record counts the rows that went in, those that stay, and the difference, and has an entry for
      each changed file.  Too many are counted as staying exactly when some file holds too few. */
  ghost predicate NumbersAreRight(fp: Fingerprint, before: Files, after: Files, record: State)
    requires Validated(before)
  {
    && record.inputRows == RowCount(before)
    && record.outputRows >= RowCount(after)
    && (record.outputRows == RowCount(after) <==> NoneHoldsTooFew(fp, before))
    && record.duplicateRows == record.inputRows - record.outputRows
    && EntriesAreRight(before, after, record.entries)
  }

  lemma PlannedNumbersAreRight(fp: Fingerprint, files: Files)
    requires Injective(fp) && Validated(files)
    ensures NumbersAreRight(fp, files, Promoted(fp, files), StatePayload(fp, files))
  {
    var names := Sorted(Names(files));
    CurrentRowsCount(files);
    PromotedKeepsPaths(fp, files);
    CurrentRowsCount(Promoted(fp, files));
    OutputRowsCountPromoted(fp, files, names);
    PlannedEntriesAreRight(fp, files);
  }

  /** After any kills, a complete invocation leaves a record with the right numbers. */
  lemma RecordIsRight(fp: Fingerprint, history: seq<Disk>, tokens: seq<Token>, token: Token)
    requires Injective(fp) && KilledRuns(fp, history, tokens) && NeedsPass(history[0])
    ensures var done := Final(Run(fp, history[|history| - 1], token));
            done.state.Some? && NumbersAreRight(fp, history[0].files, done.files, done.state.value)
  {
    KilledRunsAreRecoverable(fp, history, tokens, |history| - 1);
    RunCompletes(fp, history[0], history[|history| - 1], token);
    PlannedNumbersAreRight(fp, history[0].files);
  }

  /** What an invocation reports: a finished pass with its recorded numbers, or the pass that it carries
      out, which counts as skipped when no file has to change. */
  ghost predicate ReportsRight(before: Disk, origin: Files, done: Disk, result: Result<Report, Error>)
    requires done.state.Some?
  {
    var record, changed := done.state.value, ChangedFiles(origin, done.files);
    && result.Ok?
    && result.value.inputRows == record.inputRows
    && if CompleteStateMatches(before.state, Hashes(before.files)) then
         result.value == Report(Skipped, record.inputRows, RowCount(done.files), record.duplicateRows, 0)
       else if changed == {} then
         result.value == Report(Skipped, record.inputRows, record.outputRows, 0, 0)
       else
         result.value == Report(Deduplicated, record.inputRows, record.outputRows, record.duplicateRows, |changed|)
  }

  lemma SweptIsPromoting(job: PlannedJob, disk: Disk)
    requires job.IsPromoting(disk)
    ensures Swept(disk).state == disk.state && job.pass.UnderWay(Swept(disk))
    ensures Swept(disk).stages.Keys == {disk.state.value.stageDir.value}
  {
  }

  lemma SweptPassReports(job: PlannedJob, disk: Disk)
    requires job.IsPromoting(disk)
    ensures ResumeStaged(Swept(disk), disk.state.value).result == Ok(ResumedReport(job.pass.payload))
  {
    SweptIsPromoting(job, disk);
    ResumeFinishes(job.pass, Swept(disk));
  }

  lemma PassReports(fp: Fingerprint, origin: Disk, disk: Disk, token: Token)
    requires Injective(fp) && ValidOrigin(fp, origin) && NeedsPass(origin)
    requires JobOf(fp, origin).IsPromoting(disk)
    ensures Run(fp, disk, token).result == Ok(ResumedReport(StatePayload(fp, origin.files)))
  {
    JobIsPlanned(fp, origin);
    SweptPassReports(JobOf(fp, origin), disk);
  }

  lemma StartPassReports(job: PlannedJob, disk: Disk, token: Token)
    requires job.needed && job.pass.payload.entries != [] && job.IsBefore(disk) && disk.stages == map[]
    ensures StartPass(disk, token, job.pass.payload, job.pass.staged).result == Ok(ResumedReport(job.pass.payload))
  {
    RecordedIsPromoting(job, disk, token);
    ResumeFinishes(job.pass, Recorded(disk, token, job.pass.payload, job.pass.staged));
  }

  lemma FreshPassReports(fp: Fingerprint, origin: Disk, disk: Disk, token: Token)
    requires Injective(fp) && ValidOrigin(fp, origin) && NeedsPass(origin)
    requires disk.files == origin.files && disk.state == origin.state && disk.stages == map[]
    ensures var payload := StatePayload(fp, origin.files);
            StartFresh(fp, disk, token).result
            == if payload.entries == [] then Ok(Report(Skipped, payload.inputRows, payload.outputRows, 0, 0))
               else Ok(ResumedReport(payload))
  {
    var job := JobOf(fp, origin);
    JobIsPlanned(fp, origin);
    FreshStart(fp, origin, disk, token);
    if job.pass.payload.entries != [] {
      StartPassReports(job, disk, token);
    }
  }

  lemma FreshRun(fp: Fingerprint, disk: Disk, token: Token)
    requires Injective(fp) && (disk.state.Some? ==> disk.state.value.status == Complete)
    ensures Run(fp, disk, token).result == StartFresh(fp, disk.(stages := map[]), token).result
  {
    assert Swept(disk).stages == map[];
  }

  lemma FinishedPassReports(fp: Fingerprint, origin: Disk, disk: Disk, token: Token)
    requires Injective(fp) && ValidOrigin(fp, origin) && NeedsPass(origin)
    requires JobOf(fp, origin).IsAfter(disk)
    ensures CompleteStateMatches(disk.state, Hashes(disk.files))
    ensures Run(fp, disk, token).result
         == Ok(SkippedReport(disk.state.value, CurrentRows(disk.files, Sorted(Names(disk.files)))))
  {
    JobIsPlanned(fp, origin);
  }

  /** After any kills, an invocation reports the numbers of the record that it leaves. */
  lemma ReportIsRight(fp: Fingerprint, history: seq<Disk>, tokens: seq<Token>, token: Token)
    requires Injective(fp) && KilledRuns(fp, history, tokens) && NeedsPass(history[0])
    ensures var last := history[|history| - 1];
            var trace := Run(fp, last, token);
            Final(trace).state.Some? && ReportsRight(last, history[0].files, Final(trace), trace.result)
  {
    var origin, last := history[0], history[|history| - 1];
    KilledRunsAreRecoverable(fp, history, tokens, |history| - 1);
    RunCompletes(fp, origin, last, token);
    RecordIsRight(fp, history, tokens, token);
    var job := JobOf(fp, origin);
    if job.IsBefore(last) {
      FreshRun(fp, last, token);
      FreshPassReports(fp, origin, last.(stages := map[]), token);
    } else if job.IsPromoting(last) {
      PassReports(fp, origin, last, token);
    } else {
      FinishedPassReports(fp, origin, last, token);
      CurrentRowsCount(last.files);
    }
  }

  /** With nothing to do, an invocation reports what is on record, and zeros without any file. */
  lemma IdleRunReports(fp: Fingerprint, origin: Disk, token: Token)
    requires Injective(fp) && ValidOrigin(fp, origin) && !NeedsPass(origin)
    ensures Run(fp, origin, token).result.Ok?
    ensures Run(fp, origin, token).result.value
         == if Names(origin.files) == {} then Report(Skipped, 0, 0, 0, 0)
            else Report(Skipped, origin.state.value.inputRows, RowCount(origin.files),
                        origin.state.value.duplicateRows, 0)
    ensures Final(Run(fp, origin, token)) == origin.(stages := map[])
  {
    FreshRun(fp, origin, token);
    CurrentRowsCount(origin.files);
    RunCompletes(fp, origin, origin, token);
  }

  /** With one file for each source, whose rows it holds, the numbers are those of the files. */
  lemma SeparateSourcesAreCounted(fp: Fingerprint, files: Files)
    requires Injective(fp) && Validated(files) && SeparateSources(files)
    ensures NoneHoldsTooFew(fp, files)
  {
    forall name | name in Names(files)
      ensures !HoldsTooFew(fp, files, name)
    {
      SelectionInFile(fp, files, name);
      assert ValidPair(files, name);
      UniqueRowsCount(Rows(files, name));
      SubsetIsSmaller(Selection(fp, files, ManifestOf(files, name).source), RowsOf(Rows(files, name)));
    }
  }

  /* ---------------------------------------------- a dataset with wrong numbers */

  /** Two files of one source, each with one of its two rows. */
  function SplitSource(a: Row, b: Row): Files
  {
    PairOf("a", a.source, [a]) + PairOf("b", a.source, [b])
  }

  /** A validated dataset of two such files, whatever their names. */
  ghost predicate IsSplit(files: Files, x: Name, y: Name, a: Row, b: Row)
  {
    && Validated(files) && Names(files) == {x, y} && x != y
    && Rows(files, x) == [a] && Rows(files, y) == [b]
    && ManifestOf(files, x).source == ManifestOf(files, y).source == a.source == b.source
  }

  lemma SplitSourceIsValid(a: Row, b: Row)
    requires a.source == b.source && Eligible(a, true) && Eligible(b, true)
    ensures IsSplit(SplitSource(a, b), "a", "b", a, b)
  {
    var files := SplitSource(a, b);
    assert "a" != "b";
    assert files.Keys == {DataFile("a"), ManifestFile("a"), DataFile("b"), ManifestFile("b")};
    assert forall name :: name in Names(files) <==> DataFile(name) in files;
    assert forall name :: name in ManifestNames(files) <==> ManifestFile(name) in files;
    assert DataFile("a") in files && DataFile("b") in files;
  }

  lemma RowsOfSplit(files: Files, x: Name, y: Name, a: Row, b: Row)
    requires IsSplit(files, x, y, a, b)
    ensures AllRowsOf(files) == {a, b}
  {
    forall row: Row
      ensures row in AllRowsOf(files) <==> row in {a, b}
    {
      if row in AllRowsOf(files) {
        var path :| path in files && path.DataFile? && row in Rows(files, path.name);
        assert path.name in Names(files);
      }
      if row in {a, b} {
        var name := if row == a then x else y;
        assert name in Names(files) && DataFile(name) in files && row in Rows(files, DataFile(name).name);
      }
    }
  }

  lemma SplitIsCanonical(fp: Fingerprint, files: Files, x: Name, y: Name, a: Row, b: Row)
    requires IsSplit(files, x, y, a, b) && a.id != b.id && Eligible(a, true) && Eligible(b, true)
    ensures Dataset.Deduplicated(fp, files) == {a, b}
  {
    RowsOfSplit(files, x, y, a, b);
    DistinctRowsAreCanonical(fp, {a, b});
  }

  lemma SplitMatches(fp: Fingerprint, files: Files, x: Name, y: Name, a: Row, b: Row)
    requires IsSplit(files, x, y, a, b) && Dataset.Deduplicated(fp, files) == {a, b}
    ensures OwnSources(files) && KnownSources(fp, files)
    ensures x in Names(files) && y in Names(files)
  {
    assert x in Names(files) && y in Names(files);
  }

  lemma TwoOfOneSource(fp: Fingerprint, files: Files, a: Row, b: Row)
    requires Dataset.Deduplicated(fp, files) == {a, b} && a != b && a.source == b.source
    ensures |Selection(fp, files, a.source)| == 2
  {
    assert Selection(fp, files, a.source) == {a, b};
  }

  /** The counts over two files that hold `n` rows each while the source of each has `m`. */
  lemma TwoFilesAreCounted(fp: Fingerprint, files: Files, names: seq<Name>, x: Name, y: Name, n: nat, m: nat)
    requires AllHaveManifests(files, names) && x != y && x in names && y in names && |names| == 2
    requires |Rows(files, x)| == n && |Rows(files, y)| == n
    requires |Selection(fp, files, ManifestOf(files, x).source)| == m
    requires |Selection(fp, files, ManifestOf(files, y).source)| == m
    ensures CurrentRows(files, names) == n + n && OutputRows(fp, files, names) == m + m
  {
    var first, second := names[0], names[1];
    assert names[1..] == [second] && [second][1..] == [];
    assert (first == x && second == y) || (first == y && second == x);
    assert CurrentRows(files, [second]) == |Rows(files, second)| + CurrentRows(files, [second][1..]);
    assert OutputRows(fp, files, [second])
        == |Selection(fp, files, ManifestOf(files, second).source)| + OutputRows(fp, files, [second][1..]);
  }

  /** A dataset on which the record is wrong: two rows go in and stay, but four are recorded as staying
      and minus two as duplicates, because each file is counted with both rows of the source. */
  lemma SplitSourceIsOvercounted(fp: Fingerprint, a: Row, b: Row)
    requires Injective(fp) && a.source == b.source && a.id != b.id && Eligible(a, true) && Eligible(b, true)
    ensures var files := SplitSource(a, b);
            && Validated(files) && KnownSources(fp, files) && OwnSources(files) && !NoneHoldsTooFew(fp, files)
            && var record := StatePayload(fp, files);
               (record.inputRows, record.outputRows, record.duplicateRows) == (2, 4, -2)
  {
    SplitSourceIsValid(a, b);
    SplitIsOvercounted(fp, SplitSource(a, b), "a", "b", a, b);
  }

  lemma SplitIsOvercounted(fp: Fingerprint, files: Files, x: Name, y: Name, a: Row, b: Row)
    requires Injective(fp) && IsSplit(files, x, y, a, b)
    requires a.id != b.id && Eligible(a, true) && Eligible(b, true)
    ensures KnownSources(fp, files) && OwnSources(files) && !NoneHoldsTooFew(fp, files)
    ensures var record := StatePayload(fp, files);
            (record.inputRows, record.outputRows, record.duplicateRows) == (2, 4, -2)
  {
    SplitIsCanonical(fp, files, x, y, a, b);
    SplitMatches(fp, files, x, y, a, b);
    TwoOfOneSource(fp, files, a, b);
    assert HoldsTooFew(fp, files, x);
    var names := Sorted(Names(files));
    assert AllHaveManifests(files, names);
    SortedCount({x, y});
    TwoFilesAreCounted(fp, files, names, x, y, 1, 2);
    PayloadNumbers(fp, files, names);
  }

  lemma PayloadNumbers(fp: Fingerprint, files: Files, names: seq<Name>)
    requires Injective(fp) && Validated(files) && names == Sorted(Names(files))
    ensures var record := StatePayload(fp, files);
            && record.inputRows == CurrentRows(files, names) && record.outputRows == OutputRows(fp, files, names)
            && record.duplicateRows == CurrentRows(files, names) - OutputRows(fp, files, names)
  {
  }
}
