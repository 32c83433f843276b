/** The order in which a deduplication pass promotes a pair.

    Main result: at every instant of every killed history, a manifest that is not the old one
    any more describes the Parquet that stands beside it.
 */
module PromotionOrder {
  import opened Wrappers
  import opened CanonicalRows
  import opened Dataset
  import opened Staging
  import opened Deduplication

  /** No staged manifest has left the staging directory before its Parquet. */
  ghost predicate ParquetFirst(stage: Files, staged: Files)
  {
    forall name :: ManifestFile(name) in staged && ManifestFile(name) !in stage ==> DataFile(name) !in stage
  }

  ghost predicate AllParquetFirst(disks: seq<Disk>, token: Token, staged: Files, state: Option<State>)
  {
    forall k :: 0 <= k < |disks| ==>
      token in disks[k].stages && ParquetFirst(disks[k].stages[token], staged) && disks[k].state == state
  }

  lemma OneMoreFirst(disk: Disk, rest: seq<Disk>, token: Token, staged: Files)
    requires AllParquetFirst([disk], token, staged, disk.state) && AllParquetFirst(rest, token, staged, disk.state)
    ensures AllParquetFirst([disk] + rest, token, staged, disk.state)
  {
    assert [disk][0] == disk;
  }

  lemma StartsFirst(disk: Disk, token: Token, staged: Files)
    requires token in disk.stages && ParquetFirst(disk.stages[token], staged)
    ensures AllParquetFirst([disk], token, staged, disk.state)
  {
  }

  lemma {:induction false} PromotionKeepsOrder(disk: Disk, token: Token, entries: seq<Entry>, staged: Files)
    requires token in disk.stages && ParquetFirst(disk.stages[token], staged)
    ensures AllParquetFirst(PromoteAll(disk, token, ArtifactsOf(entries)).0, token, staged, disk.state)
    decreases |entries|, 1
  {
    StartsFirst(disk, token, staged);
    if entries != [] {
      var pair, rest := EntryArtifacts(entries[0]), ArtifactsOf(entries[1..]);
      assert (pair + rest)[0] == pair[0] && (pair + rest)[1..] == [pair[1]] + rest;
      if pair[0].path in disk.stages[token] {
        var moved := Moved(disk, token, pair[0].path);
        ManifestKeepsOrder(moved, token, entries, staged);
        OneMoreFirst(disk, PromoteAll(moved, token, [pair[1]] + rest).0, token, staged);
      } else {
        ManifestKeepsOrder(disk, token, entries, staged);
      }
    }
  }

  lemma {:induction false} ManifestKeepsOrder(disk: Disk, token: Token, entries: seq<Entry>, staged: Files)
    requires token in disk.stages && ParquetFirst(disk.stages[token], staged)
    requires entries != [] && DataFile(entries[0].name) !in disk.stages[token]
    ensures AllParquetFirst(
              PromoteAll(disk, token, [EntryArtifacts(entries[0])[1]] + ArtifactsOf(entries[1..])).0,
              token, staged, disk.state)
    decreases |entries|, 0
  {
    var manifest, rest := EntryArtifacts(entries[0])[1], ArtifactsOf(entries[1..]);
    StartsFirst(disk, token, staged);
    assert ([manifest] + rest)[1..] == rest;
    if manifest.path in disk.stages[token] {
      var moved := Moved(disk, token, manifest.path);
      PromotionKeepsOrder(moved, token, entries[1..], staged);
      OneMoreFirst(disk, PromoteAll(moved, token, rest).0, token, staged);
    } else {
      PromotionKeepsOrder(disk, token, entries[1..], staged);
    }
  }

  /** A recorded pass has not promoted a manifest before its Parquet. */
  ghost predicate Orderly(disk: Disk, staged: Files)
  {
    var referenced := ReferencedStage(disk.state);
    referenced.Some? && referenced.value in disk.stages ==> ParquetFirst(disk.stages[referenced.value], staged)
  }

  ghost predicate AllOrderly(disks: seq<Disk>, staged: Files)
  {
    forall k :: 0 <= k < |disks| ==> Orderly(disks[k], staged)
  }

  lemma OrderlyConcat(a: seq<Disk>, b: seq<Disk>, staged: Files)
    requires AllOrderly(a, staged) && AllOrderly(b, staged)
    ensures AllOrderly(a + b, staged)
  {
  }

  lemma OneOrderly(disk: Disk, staged: Files)
    requires Orderly(disk, staged)
    ensures AllOrderly([disk], staged)
  {
  }

  lemma PromotingIsOrderly(disk: Disk, state: State, token: Token, staged: Files)
    requires disk.state == Some(state) && state.status == Staged && state.stageDir == Some(token)
    requires token in disk.stages && ParquetFirst(disk.stages[token], staged)
    ensures AllOrderly(PromoteAll(disk, token, ArtifactsOf(state.entries)).0, staged)
  {
    PromotionKeepsOrder(disk, token, state.entries, staged);
  }

  lemma CompleteIsOrderly(disk: Disk, staged: Files)
    requires disk.state.Some? && disk.state.value.status == Complete
    ensures Orderly(disk, staged)
  {
  }

  lemma ResumedIsOrderly(disk: Disk, state: State, token: Token, promoting: seq<Disk>, staged: Files)
    requires promoting != [] && AllOrderly(promoting, staged)
    ensures AllOrderly(ResumedTrace(disk, state, token, promoting).disks, staged)
  {
    var recorded := Last(promoting).(state := Some(CompleteState(state, Hashes(disk.files))));
    var cleaned := recorded.(stages := recorded.stages - {token});
    CompleteIsOrderly(recorded, staged);
    CompleteIsOrderly(cleaned, staged);
    OrderlyConcat(promoting, [recorded, cleaned], staged);
  }

  lemma TraceIsOrderly(disk: Disk, state: State, token: Token, staged: Files)
    requires token in disk.stages && AllOrderly(PromoteAll(disk, token, ArtifactsOf(state.entries)).0, staged)
    ensures AllOrderly(PromotionTrace(disk, state, token).disks, staged)
  {
    ResumedIsOrderly(disk, state, token, PromoteAll(disk, token, ArtifactsOf(state.entries)).0, staged);
  }

  lemma ResumeKeepsOrder(disk: Disk, state: State, staged: Files)
    requires disk.state == Some(state) && state.status == Staged && Orderly(disk, staged)
    ensures AllOrderly(ResumeStaged(disk, state).disks, staged)
  {
    OneOrderly(disk, staged);
    if state.stageDir.Some? && state.stageDir.value in disk.stages {
      PromotingIsOrderly(disk, state, state.stageDir.value, staged);
      TraceIsOrderly(disk, state, state.stageDir.value, staged);
    }
  }

  lemma FreshKeepsOrder(fp: Fingerprint, origin: Disk, disk: Disk, token: Token)
    requires Injective(fp) && ValidOrigin(fp, origin) && NeedsPass(origin)
    requires disk == origin.(stages := map[])
    ensures AllOrderly(StartFresh(fp, disk, token).disks, NewFiles(Plan(fp, origin.files)))
  {
    var job, staged := JobOf(fp, origin), NewFiles(Plan(fp, origin.files));
    FreshStart(fp, origin, disk, token);
    if job.pass.payload.entries != [] {
      var recorded := Recorded(disk, token, job.pass.payload, staged);
      var before := [disk, disk.(stages := recorded.stages)];
      assert AllOrderly(before, staged);
      ResumeKeepsOrder(recorded, recorded.state.value, staged);
      OrderlyConcat(before, ResumeStaged(recorded, recorded.state.value).disks, staged);
    }
  }

  lemma RunKeepsOrder(fp: Fingerprint, origin: Disk, disk: Disk, token: Token)
    requires Injective(fp) && ValidOrigin(fp, origin) && NeedsPass(origin)
    requires JobOf(fp, origin).Recoverable(disk) && Orderly(disk, NewFiles(Plan(fp, origin.files)))
    ensures AllOrderly(Run(fp, disk, token).disks, NewFiles(Plan(fp, origin.files)))
  {
    var job, swept, staged := JobOf(fp, origin), Swept(disk), NewFiles(Plan(fp, origin.files));
    JobIsPlanned(fp, origin);
    OneOrderly(disk, staged);
    if job.IsPromoting(disk) {
      ResumeKeepsOrder(swept, disk.state.value, staged);
    } else if job.IsBefore(disk) {
      SweptBefore(job, disk);
      FreshKeepsOrder(fp, origin, swept, token);
    } else {
      SweptTarget(job, disk);
      TargetStartSkips(fp, origin, swept, token);
      OneOrderly(swept, staged);
    }
    OrderlyConcat([disk], AfterSweep(fp, swept, token).disks, staged);
  }

  lemma {:induction false} HistoryIsOrderly(fp: Fingerprint, history: seq<Disk>, tokens: seq<Token>, i: nat)
    requires Injective(fp) && KilledRuns(fp, history, tokens) && NeedsPass(history[0]) && i < |history|
    ensures Orderly(history[i], NewFiles(Plan(fp, history[0].files)))
  {
    if i > 0 {
      var staged := NewFiles(Plan(fp, history[0].files));
      HistoryIsOrderly(fp, history, tokens, i - 1);
      KilledRunsAreRecoverable(fp, history, tokens, i - 1);
      RunKeepsOrder(fp, history[0], history[i - 1], tokens[i - 1]);
      var disks := Run(fp, history[i - 1], tokens[i - 1]).disks;
      assert KillLeaves(fp, history[i - 1], tokens[i - 1], history[i]);
      var k :| 0 <= k < |disks| && SameButOrphans(history[i], disks[k]);
      assert Orderly(disks[k], staged);
    }
  }

  /** At every instant a manifest is the old one or describes the Parquet beside it. */
  lemma NewManifestsDescribeTheirParquets(
    fp: Fingerprint, history: seq<Disk>, tokens: seq<Token>, i: nat, name: Name)
    requires Injective(fp) && KilledRuns(fp, history, tokens) && NeedsPass(history[0]) && i < |history|
    requires name in Names(history[0].files)
    ensures var before, files := history[0].files, history[i].files;
            && DataFile(name) in files && HasManifest(files, name)
            && (files[ManifestFile(name)] == before[ManifestFile(name)]
                || ManifestOf(files, name).output == OutputIdentity(name, Sha256(files[DataFile(name)])))
  {
    var origin, disk := history[0], history[i];
    var job := JobOf(fp, origin);
    HistoryIsOrderly(fp, history, tokens, i);
    KilledRunsAreRecoverable(fp, history, tokens, i);
    JobIsPlanned(fp, origin);
    PromotedIsValidated(fp, origin.files);
    PromotedKeepsPaths(fp, origin.files);
    assert ValidPair(origin.files, name) && ValidPair(Promoted(fp, origin.files), name);
  }
}
