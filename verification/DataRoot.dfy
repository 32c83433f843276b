/** The data root on which a deduplication pass works, file by file.

    Every change that a kill could leave behind is appended to the ghost
    `journal`.  `Deduplicate` is proved to return what `Run` says, to end on
    the disk that `Run` ends on, and to journal only disks that `KillLeaves`
    allows, so the recovery results about `Run` hold of it.
 */
module DataRoots {
  import opened Wrappers
  import opened CanonicalRows
  import opened Dataset
  import opened SortedText
  import opened Staging
  import opened Deduplication

  /** The journal grew by disks that agree with one of `disks` up to orphans. */
  ghost predicate Logged(before: seq<Disk>, after: seq<Disk>, disks: seq<Disk>)
  {
    before <= after && forall i :: |before| <= i < |after| ==> Among(after[i], disks)
  }

  ghost predicate Covers(disks: seq<Disk>, other: seq<Disk>)
  {
    forall disk :: Among(disk, other) ==> Among(disk, disks)
  }

  lemma CoversPart(disks: seq<Disk>, from: nat, to: nat)
    requires from <= to <= |disks|
    ensures Covers(disks, disks[from..to])
  {
    forall disk | Among(disk, disks[from..to])
      ensures Among(disk, disks)
    {
      var k :| 0 <= k < |disks[from..to]| && SameButOrphans(disk, disks[from..to][k]);
      assert disks[from..to][k] == disks[from + k];
    }
  }

  lemma SmallerDirectory(stage: Files, path: Path)
    requires path in stage
    ensures |stage - {path}| < |stage|
  {
    assert (stage - {path}).Keys == stage.Keys - {path};
  }

  /** Only the content or the existence of one staging directory differs. */
  ghost predicate OrphanChanged(start: Disk, disk: Disk, token: Token)
  {
    disk.files == start.files && disk.state == start.state && disk.stages - {token} == start.stages - {token}
  }

  /** Changing an unreferenced staging directory can be journaled. */
  lemma LogOrphanChange(before: seq<Disk>, journal: seq<Disk>, start: Disk, disk: Disk, token: Token)
    requires Logged(before, journal, [start])
    requires OrphanChanged(start, disk, token)
    requires ReferencedStage(start.state) != Some(token)
    ensures Logged(before, journal + [disk], [start])
  {
    var referenced := ReferencedStage(start.state);
    if referenced.Some? {
      assert referenced.value in disk.stages - {token} <==> referenced.value in start.stages - {token};
    }
    assert SameButOrphans(disk, [start][0]);
  }

  class DataRoot {
    var disk: Disk
    ghost var journal: seq<Disk>

    constructor (disk: Disk)
      ensures this.disk == disk && journal == [disk]
    {
      this.disk := disk;
      journal := [disk];
    }

    /** Atomically replace the recorded state. */
    method WriteState(state: State)
      modifies this
      ensures disk == old(disk).(state := Some(state))
      ensures journal == old(journal) + [disk]
    {
      disk := disk.(state := Some(state));
      journal := journal + [disk];
    }

    /** Write one file into a staging directory, creating the directory with its first file. */
    method WriteStaged(token: Token, path: Path, content: Content)
      modifies this
      ensures var files := if token in old(disk).stages then old(disk).stages[token] else map[];
              disk == old(disk).(stages := old(disk).stages[token := files[path := content]])
      ensures journal == old(journal) + [disk]
    {
      var stage := if token in disk.stages then disk.stages[token] else map[];
      disk := disk.(stages := disk.stages[token := stage[path := content]]);
      journal := journal + [disk];
    }

    /** Unlink one file of an unreferenced staging directory. */
    method UnlinkStaged(token: Token, path: Path, ghost start: Disk, ghost before: seq<Disk>)
      requires token in disk.stages && path in disk.stages[token]
      requires OrphanChanged(start, disk, token) && ReferencedStage(start.state) != Some(token)
      requires Logged(before, journal, [start])
      modifies this
      ensures disk == old(disk).(stages := old(disk).stages[token := old(disk).stages[token] - {path}])
      ensures OrphanChanged(start, disk, token) && Logged(before, journal, [start])
    {
      disk := disk.(stages := disk.stages[token := disk.stages[token] - {path}]);
      LogOrphanChange(before, journal, start, disk, token);
      journal := journal + [disk];
    }

    /** Remove an unreferenced staging directory, one file at a time and then the directory itself. */
    method RemoveTree(token: Token)
      requires token in disk.stages && ReferencedStage(disk.state) != Some(token)
      modifies this
      ensures disk == old(disk).(stages := old(disk).stages - {token})
      ensures Logged(old(journal), journal, [old(disk)])
    {
      ghost var start, before := disk, journal;
      while disk.stages[token] != map[]
        invariant token in disk.stages && OrphanChanged(start, disk, token)
        invariant Logged(before, journal, [start])
        decreases |disk.stages[token]|
      {
        var path :| path in disk.stages[token];
        SmallerDirectory(disk.stages[token], path);
        UnlinkStaged(token, path, start, before);
      }
      disk := disk.(stages := disk.stages - {token});
      LogOrphanChange(before, journal, start, disk, token);
      journal := journal + [disk];
    }

    /** Remove every staging directory that no state refers to. */
    method SweepOrphanStageEntries()
      modifies this
      ensures disk == Swept(old(disk))
      ensures Logged(old(journal), journal, [old(disk)])
    {
      ghost var start := disk;
      var referenced := ReferencedStage(disk.state);
      var orphans := set token | token in disk.stages && referenced != Some(token);
      while orphans != {}
        invariant orphans == set token | token in disk.stages && referenced != Some(token)
        invariant disk.files == start.files && disk.state == start.state
        invariant disk.stages.Keys <= start.stages.Keys
        invariant forall token :: token in start.stages && referenced == Some(token) ==> token in disk.stages
        invariant forall token :: token in disk.stages ==> disk.stages[token] == start.stages[token]
        invariant Logged(old(journal), journal, [start])
        decreases |orphans|
      {
        var token :| token in orphans;
        ghost var before, logged := disk, journal;
        RemoveTree(token);
        assert Covers([start], [before]) by {
          forall other | Among(other, [before])
            ensures Among(other, [start])
          {
            assert SameButOrphans(other, [start][0]);
          }
        }
        orphans := orphans - {token};
      }
      forall token | token in disk.stages
        ensures referenced == Some(token)
      {
        assert token !in orphans;
      }
      assert disk.stages == Swept(start).stages;
    }

    /** Move a staged artifact into place, or accept that an earlier run has moved it. */
    method PromoteArtifact(token: Token, artifact: Artifact) returns (result: Result<bool, Error>)
      requires token in disk.stages
      modifies this
      ensures artifact.path in old(disk).stages[token] ==>
                result == Ok(true) && disk == Moved(old(disk), token, artifact.path) && journal == old(journal) + [disk]
      ensures artifact.path !in old(disk).stages[token] ==>
                && disk == old(disk) && journal == old(journal)
                && result == if AlreadyPromoted(disk, artifact) then Ok(false) else Err(ArtifactMissing(artifact.path))
    {
      if artifact.path in disk.stages[token] {
        disk := Moved(disk, token, artifact.path);
        journal := journal + [disk];
        return Ok(true);
      }
      if artifact.path in disk.files && Sha256(disk.files[artifact.path]) == artifact.digest {
        return Ok(false);
      }
      return Err(ArtifactMissing(artifact.path));
    }

    /** Promote the Parquet and then the manifest of every recorded entry. */
    method PromoteStaged(token: Token, entries: seq<Entry>) returns (error: Option<Error>)
      requires token in disk.stages
      modifies this
      ensures var (disks, failure) := PromoteAll(old(disk), token, ArtifactsOf(entries));
              && error == failure
              && disk == disks[|disks| - 1]
              && Logged(old(journal), journal, disks)
    {
      ghost var all := PromoteAll(disk, token, ArtifactsOf(entries));
      for i := 0 to |entries|
        invariant token in disk.stages
        invariant Continues(all, disk, token, ArtifactsOf(entries[i..]))
        invariant Logged(old(journal), journal, all.0)
      {
        var artifacts := EntryArtifacts(entries[i]);
        assert entries[i..][0] == entries[i] && entries[i..][1..] == entries[i + 1..];
        ghost var later := ArtifactsOf(entries[i + 1..]);
        for j := 0 to 2
          invariant token in disk.stages
          invariant Continues(all, disk, token, artifacts[j..] + later)
          invariant Logged(old(journal), journal, all.0)
        {
          assert (artifacts[j..] + later)[0] == artifacts[j];
          assert (artifacts[j..] + later)[1..] == artifacts[j + 1..] + later;
          ghost var before := disk;
          var promoted := PromoteArtifact(token, artifacts[j]);
          ContinuesStep(all, before, token, artifacts[j..] + later);
          if promoted.Err? {
            return Some(promoted.error);
          }
          assert SameButOrphans(disk, disk);
          assert Among(disk, PromoteAll(disk, token, artifacts[j + 1..] + later).0) by {
            PromoteAllStartsHere(disk, token, artifacts[j + 1..] + later);
          }
        }
        assert artifacts[2..] + later == later;
      }
      assert entries[|entries|..] == [];
      return None;
    }

    /** Check the recorded inputs, promote, record the completion, and only then drop the staging directory. */
    method ResumeStaged(state: State) returns (result: Result<Report, Error>)
      modifies this
      ensures var trace := Deduplication.ResumeStaged(old(disk), state);
              && result == trace.result
              && disk == Final(trace)
              && Logged(old(journal), journal, trace.disks)
    {
      var current := Hashes(disk.files);
      var drifted := StagedInputDriftNames(current, state.inputs, StagedOutputHashes(state.entries));
      if drifted != {} {
        return Err(InputsDrifted(drifted));
      }
      if state.stageDir.None? || state.stageDir.value !in disk.stages {
        return Err(StageMissing);
      }
      result := FinishPromotion(state, state.stageDir.value, current);
    }

    /** Promote, record the completion, and only then drop the staging directory. */
    method FinishPromotion(state: State, token: Token, current: map<Name, Digest>)
      returns (result: Result<Report, Error>)
      requires state.stageDir == Some(token) && token in disk.stages && current == Hashes(disk.files)
      modifies this
      ensures var trace := PromotionTrace(old(disk), state, token);
              && result == trace.result
              && disk == Final(trace)
              && Logged(old(journal), journal, trace.disks)
    {
      ghost var start, before := disk, journal;
      var error := PromoteStaged(token, state.entries);
      if error.Some? {
        return Err(error.value);
      }
      PromoteAllKeepsOtherStages(start, token, ArtifactsOf(state.entries));
      RecordCompletion(
        token, CompleteState(state, current), PromoteAll(start, token, ArtifactsOf(state.entries)).0, before);
      return Ok(ResumedReport(state));
    }

    /** The record is complete before the staging directory goes. */
    method RecordCompletion(token: Token, complete: State, ghost promoting: seq<Disk>, ghost before: seq<Disk>)
      requires token in disk.stages && complete.status == Complete
      requires Logged(before, journal, promoting)
      modifies this
      ensures var recorded := old(disk).(state := Some(complete));
              var cleaned := recorded.(stages := recorded.stages - {token});
              disk == cleaned && Logged(before, journal, promoting + [recorded, cleaned])
    {
      ghost var promoted := journal;
      WriteState(complete);
      ghost var recorded := disk;
      RemoveTree(token);
      ResumeIsLogged(before, promoted, journal, promoting, recorded, disk);
    }

    /** Write one staged Parquet and then its manifest. */
    method WritePair(token: Token, pair: StagedFile, ghost start: Disk, ghost before: seq<Disk>)
      requires OrphanChanged(start, disk, token) && ReferencedStage(start.state) != Some(token)
      requires Logged(before, journal, [start])
      modifies this
      ensures disk == Added(old(disk), token, NewFiles([pair]))
      ensures OrphanChanged(start, disk, token) && Logged(before, journal, [start])
    {
      ghost var stage := StageOf(disk, token);
      NewFilesOfOne([pair]);
      WriteStaged(token, DataFile(pair.name), Parquet(pair.rows));
      LogOrphanChange(before, journal[..|journal| - 1], start, disk, token);
      WriteStaged(token, ManifestFile(pair.name), ManifestText(pair.manifest));
      LogOrphanChange(before, journal[..|journal| - 1], start, disk, token);
      assert DataFile(pair.name) in NewFiles([pair]);
      assert stage[DataFile(pair.name) := Parquet(pair.rows)][ManifestFile(pair.name) := ManifestText(pair.manifest)]
          == stage + NewFiles([pair]);
    }

    /** Write the reduced Parquet of one source and its manifest, when rows have to go. */
    method StageSource(fp: Fingerprint, token: Token, name: Name, ghost start: Disk, ghost before: seq<Disk>)
      returns (newRows: nat, record: seq<Entry>)
      requires Injective(fp) && HasManifest(disk.files, name)
      requires OrphanChanged(start, disk, token) && ReferencedStage(start.state) != Some(token)
      requires Logged(before, journal, [start])
      modifies this
      ensures var source := Dataset.StageSource(fp, old(disk).files, name);
              && newRows == |Selection(fp, old(disk).files, ManifestOf(old(disk).files, name).source)|
              && record == EntriesOf(source)
              && disk == Added(old(disk), token, NewFiles(source))
      ensures OrphanChanged(start, disk, token) && Logged(before, journal, [start])
    {
      var source := Dataset.StageSource(fp, disk.files, name);
      newRows := |Selection(fp, disk.files, ManifestOf(disk.files, name).source)|;
      record := EntriesOf(source);
      if source != [] {
        assert source == [source[0]];
        WritePair(token, source[0], start, before);
      }
    }

    /** One round of the staging loop. */
    method StageNext(fp: Fingerprint, token: Token, name: Name, changed: seq<Entry>, outputRows: nat,
                     ghost done: seq<Name>, ghost start: Disk, ghost before: seq<Disk>)
      returns (nextChanged: seq<Entry>, nextOutputRows: nat)
      requires Injective(fp) && AllHaveManifests(start.files, done + [name])
      requires StagedThrough(fp, start, token, done, disk, changed, outputRows)
      requires ReferencedStage(start.state) == None && Logged(before, journal, [start])
      modifies this
      ensures StagedThrough(fp, start, token, done + [name], disk, nextChanged, nextOutputRows)
      ensures Logged(before, journal, [start])
    {
      assert (done + [name])[|done|] == name;
      var newRows, record := StageSource(fp, token, name, start, before);
      StageOneMore(fp, start, token, done, name, changed, outputRows);
      return changed + record, outputRows + newRows;
    }

    /** Stage every source in turn. */
    method StageChanges(fp: Fingerprint, token: Token, names: seq<Name>) returns (changed: seq<Entry>, outputRows: nat)
      requires Injective(fp) && AllHaveManifests(disk.files, names)
      requires ReferencedStage(disk.state) == None && token !in disk.stages
      modifies this
      ensures StagedThrough(fp, old(disk), token, names, disk, changed, outputRows)
      ensures Logged(old(journal), journal, [old(disk)])
    {
      ghost var start, before := disk, journal;
      changed, outputRows := [], 0;
      for i := 0 to |names|
        invariant StagedThrough(fp, start, token, names[..i], disk, changed, outputRows)
        invariant Logged(before, journal, [start])
      {
        assert names[..i + 1] == names[..i] + [names[i]];
        changed, outputRows := StageNext(fp, token, names[i], changed, outputRows, names[..i], start, before);
      }
      assert names[..|names|] == names;
    }

    /** Deduplicate all finalized per-extract Parquets with atomic resumption. */
    method Deduplicate(fp: Fingerprint, token: Token) returns (result: Result<Report, Error>)
      requires Injective(fp)
      modifies this
      ensures var trace := Run(fp, old(disk), token);
              && result == trace.result
              && disk == Final(trace)
      ensures old(journal) <= journal
      ensures forall i :: |old(journal)| <= i < |journal| ==> KillLeaves(fp, old(disk), token, journal[i])
    {
      ghost var start, before := disk, journal;
      SweepOrphanStageEntries();
      ghost var swept, afterSweep := disk, journal;
      ghost var rest := AfterSweep(fp, swept, token);
      if disk.state.Some? && disk.state.value.status == Staged {
        result := ResumeStaged(disk.state.value);
      } else {
        result := StartFresh(fp, token);
      }
      RunIsLogged(before, afterSweep, journal, start, rest.disks);
    }

    /** The part of an invocation that finds no pass under way. */
    method StartFresh(fp: Fingerprint, token: Token) returns (result: Result<Report, Error>)
      requires Injective(fp)
      requires ReferencedStage(disk.state) == None && disk.stages == map[]
      modifies this
      ensures var trace := Deduplication.StartFresh(fp, old(disk), token);
              && result == trace.result
              && disk == Final(trace)
              && Logged(old(journal), journal, trace.disks)
    {
      ghost var start, before := disk, journal;
      var early := PrepareContext(disk);
      if early.Some? {
        return early.value;
      }
      if !KnownSources(fp, disk.files) {
        return Err(UnknownSources);
      }
      result := StagePass(fp, token);
    }

    /** Stage, record and carry out the pass of a validated dataset. */
    method StagePass(fp: Fingerprint, token: Token) returns (result: Result<Report, Error>)
      requires Injective(fp) && Validated(disk.files)
      requires ReferencedStage(disk.state) == None && disk.stages == map[]
      modifies this
      ensures var trace := Deduplication.StagePass(fp, old(disk), token);
              && result == trace.result
              && disk == Final(trace)
              && Logged(old(journal), journal, trace.disks)
    {
      ghost var start, before := disk, journal;
      var names := Sorted(Names(disk.files));
      var inputs, inputRows := Hashes(disk.files), CurrentRows(disk.files, names);
      ManifestsOfValidated(disk.files);
      var changed, outputRows := StageChanges(fp, token, names);
      PlanEntries(fp, start.files);
      result := FinishDeduplication(
        token, PayloadOf(inputs, inputRows, changed, outputRows), start, NewFiles(Plan(fp, start.files)), before);
    }

    /** Record the pass and carry it out, or record that nothing had to change. */
    method FinishDeduplication(
      token: Token, payload: State, ghost start: Disk, ghost staged: Files, ghost before: seq<Disk>)
      returns (result: Result<Report, Error>)
      requires token !in start.stages && disk == Added(start, token, staged)
      requires payload.entries == [] <==> staged == map[]
      requires Logged(before, journal, [start])
      modifies this
      ensures var trace := CarryOut(start, token, payload, staged);
              result == trace.result && disk == Final(trace) && Logged(before, journal, trace.disks)
    {
      ghost var staging, afterStaging := disk, journal;
      if payload.entries == [] {
        WriteState(payload);
        FinishIsLogged(before, afterStaging, journal, start, disk);
        return Ok(Report(Skipped, payload.inputRows, payload.outputRows, 0, 0));
      }
      var state := payload.(stageDir := Some(token));
      WriteState(state);
      ghost var recorded, afterRecording := disk, journal;
      assert map[] + staged == staged;
      assert recorded == Recorded(start, token, payload, staged);
      result := ResumeStaged(state);
      PassIsLogged(before, afterStaging, afterRecording, journal, start, staging, recorded);
    }
  }

  function StageOf(disk: Disk, token: Token): Files
  {
    if token in disk.stages then disk.stages[token] else map[]
  }

  /** The disk with more files in a staging directory; an empty one is never created. */
  function Added(disk: Disk, token: Token, files: Files): (added: Disk)
    ensures OrphanChanged(disk, added, token)
  {
    if files == map[] then disk else disk.(stages := disk.stages[token := StageOf(disk, token) + files])
  }

  lemma Associative<T>(a: seq<T>, b: seq<T>, c: seq<T>)
    ensures a + (b + c) == a + b + c
  {
  }

  lemma ManifestsAppend(files: Files, names: seq<Name>, last: Name)
    requires HasManifest(files, last) && AllHaveManifests(files, names)
    ensures AllHaveManifests(files, names + [last])
  {
  }

  lemma {:induction false} StageChangesAppend(fp: Fingerprint, files: Files, names: seq<Name>, last: Name)
    requires Injective(fp) && HasManifest(files, last) && AllHaveManifests(files, names)
    requires AllHaveManifests(files, names + [last])
    ensures Dataset.StageChanges(fp, files, names + [last])
         == Dataset.StageChanges(fp, files, names) + Dataset.StageSource(fp, files, last)
  {
    if names == [] {
      assert (names + [last])[1..] == [];
    } else {
      var longer := names + [last];
      assert longer[1..] == names[1..] + [last];
      StageChangesAppend(fp, files, names[1..], last);
      Associative(Dataset.StageSource(fp, files, names[0]), Dataset.StageChanges(fp, files, names[1..]),
                  Dataset.StageSource(fp, files, last));
    }
  }

  lemma {:induction false} OutputRowsAppend(fp: Fingerprint, files: Files, names: seq<Name>, last: Name)
    requires HasManifest(files, last) && AllHaveManifests(files, names)
    ensures AllHaveManifests(files, names + [last])
    ensures OutputRows(fp, files, names + [last])
         == OutputRows(fp, files, names) + |Selection(fp, files, ManifestOf(files, last).source)|
  {
    if names == [] {
      assert names + [last] == [last] && [last][1..] == [];
    } else {
      OutputRowsAppend(fp, files, names[1..], last);
      assert (names + [last])[1..] == names[1..] + [last];
    }
  }

  lemma {:induction false} EntriesAppend(a: seq<StagedFile>, b: seq<StagedFile>)
    ensures EntriesOf(a + b) == EntriesOf(a) + EntriesOf(b)
  {
    if a == [] {
      assert a + b == b;
    } else {
      EntriesAppend(a[1..], b);
      assert (a + b)[1..] == a[1..] + b;
      Associative([EntriesOf(a)[0]], EntriesOf(a[1..]), EntriesOf(b));
    }
  }

  lemma MergeAssociative(a: Files, b: Files, c: Files)
    ensures a + (b + c) == a + b + c
  {
  }

  lemma {:induction false} NewFilesAppend(a: seq<StagedFile>, b: seq<StagedFile>)
    ensures NewFiles(a + b) == NewFiles(a) + NewFiles(b)
  {
    if a == [] {
      assert a + b == b;
    } else {
      NewFilesAppend(a[1..], b);
      assert (a + b)[1..] == a[1..] + b;
      MergeAssociative(NewFiles([a[0]]), NewFiles(a[1..]), NewFiles(b));
      NewFilesOfOne([a[0]]);
    }
  }

  lemma NewFilesOfOne(source: seq<StagedFile>)
    requires |source| == 1
    ensures NewFiles(source)
         == map[DataFile(source[0].name) := Parquet(source[0].rows),
                ManifestFile(source[0].name) := ManifestText(source[0].manifest)]
  {
    assert source[1..] == [];
    assert NewFiles(source[1..]) == map[];
  }

  /** Where the staging loop stands after the first `names`. */
  ghost predicate StagedThrough(
    fp: Fingerprint, start: Disk, token: Token, names: seq<Name>, disk: Disk, changed: seq<Entry>, outputRows: nat)
    requires Injective(fp) && AllHaveManifests(start.files, names)
  {
    var staged := Dataset.StageChanges(fp, start.files, names);
    && changed == EntriesOf(staged)
    && outputRows == OutputRows(fp, start.files, names)
    && disk == Added(start, token, NewFiles(staged))
  }

  lemma StageOneMore(
    fp: Fingerprint, start: Disk, token: Token, names: seq<Name>, last: Name, changed: seq<Entry>, outputRows: nat)
    requires Injective(fp) && AllHaveManifests(start.files, names) && HasManifest(start.files, last)
    requires var disk := Added(start, token, NewFiles(Dataset.StageChanges(fp, start.files, names)));
             StagedThrough(fp, start, token, names, disk, changed, outputRows)
    ensures AllHaveManifests(start.files, names + [last])
    ensures var source := Dataset.StageSource(fp, start.files, last);
            var disk := Added(start, token, NewFiles(Dataset.StageChanges(fp, start.files, names)));
            StagedThrough(fp, start, token, names + [last], Added(disk, token, NewFiles(source)),
                          changed + EntriesOf(source),
                          outputRows + |Selection(fp, start.files, ManifestOf(start.files, last).source)|)
  {
    var staged, source := Dataset.StageChanges(fp, start.files, names), Dataset.StageSource(fp, start.files, last);
    ManifestsAppend(start.files, names, last);
    StageChangesAppend(fp, start.files, names, last);
    OutputRowsAppend(fp, start.files, names, last);
    EntriesAppend(staged, source);
    NewFilesAppend(staged, source);
    AddedTwice(start, token, NewFiles(staged), NewFiles(source));
  }

  lemma ManifestsOfValidated(files: Files)
    requires Validated(files)
    ensures AllHaveManifests(files, Sorted(Names(files)))
  {
    assert forall name :: name in Sorted(Names(files)) ==> ValidPair(files, name);
  }

  lemma AddedTwice(disk: Disk, token: Token, a: Files, b: Files)
    ensures Added(Added(disk, token, a), token, b) == Added(disk, token, a + b)
  {
    assert map[] + b == b;
    assert a + map[] == a;
    assert StageOf(disk, token) + a + b == StageOf(disk, token) + (a + b);
    if a != map[] || b != map[] {
      var path :| path in a || path in b;
      assert path in a + b;
    }
  }

  lemma PlanEntries(fp: Fingerprint, files: Files)
    requires Injective(fp) && Validated(files)
    ensures EntriesOf(Plan(fp, files)) == [] <==> Plan(fp, files) == []
    ensures Plan(fp, files) == [] <==> NewFiles(Plan(fp, files)) == map[]
  {
    if Plan(fp, files) != [] {
      NewFilesNames(Plan(fp, files), DataFile(Plan(fp, files)[0].name));
    }
  }

  /* composing journals */

  lemma LoggedThen(a: seq<Disk>, b: seq<Disk>, c: seq<Disk>, disks: seq<Disk>, first: seq<Disk>, second: seq<Disk>)
    requires Logged(a, b, first) && Logged(b, c, second)
    requires Covers(disks, first) && Covers(disks, second)
    ensures Logged(a, c, disks)
  {
    forall i | |a| <= i < |c|
      ensures Among(c[i], disks)
    {
      if i < |b| {
        assert c[i] == b[i];
      }
    }
  }

  lemma LoggedOne(before: seq<Disk>, disk: Disk)
    ensures Logged(before, before + [disk], [disk])
  {
    assert SameButOrphans(disk, [disk][0]);
  }

  lemma CoversOne(disks: seq<Disk>, k: nat)
    requires k < |disks|
    ensures Covers(disks, [disks[k]])
  {
    CoversPart(disks, k, k + 1);
    assert disks[k..k + 1] == [disks[k]];
  }

  lemma ResumeIsLogged(
    before: seq<Disk>, promoted: seq<Disk>, after: seq<Disk>, promoting: seq<Disk>, recorded: Disk, cleaned: Disk)
    requires Logged(before, promoted, promoting) && Logged(promoted + [recorded], after, [recorded])
    ensures Logged(before, after, promoting + [recorded, cleaned])
  {
    var disks := promoting + [recorded, cleaned];
    CoversPart(disks, 0, |promoting|);
    assert disks[0..|promoting|] == promoting;
    CoversOne(disks, |promoting|);
    LoggedOne(promoted, recorded);
    LoggedThen(promoted, promoted + [recorded], after, disks, [recorded], [recorded]);
    LoggedThen(before, promoted, after, disks, promoting, disks);
  }

  lemma FinishIsLogged(before: seq<Disk>, staged: seq<Disk>, after: seq<Disk>, start: Disk, recorded: Disk)
    requires Logged(before, staged, [start]) && after == staged + [recorded]
    ensures Logged(before, after, [start, recorded])
  {
    CoversOne([start, recorded], 0);
    CoversOne([start, recorded], 1);
    LoggedOne(staged, recorded);
    LoggedThen(before, staged, after, [start, recorded], [start], [recorded]);
  }

  lemma PassIsLogged(before: seq<Disk>, afterStaging: seq<Disk>, afterRecording: seq<Disk>, after: seq<Disk>,
                     start: Disk, staged: Disk, recorded: Disk)
    requires recorded.state.Some?
    requires Logged(before, afterStaging, [start]) && afterRecording == afterStaging + [recorded]
    requires Logged(afterRecording, after, Deduplication.ResumeStaged(recorded, recorded.state.value).disks)
    ensures Logged(before, after, [start, staged] + Deduplication.ResumeStaged(recorded, recorded.state.value).disks)
  {
    var resumed := Deduplication.ResumeStaged(recorded, recorded.state.value).disks;
    var disks := [start, staged] + resumed;
    CoversOne(disks, 0);
    CoversPart(disks, 2, |disks|);
    assert disks[2..|disks|] == resumed;
    ResumeStartsHere(recorded, recorded.state.value);
    CoversOne(resumed, 0);
    LoggedOne(afterStaging, recorded);
    LoggedThen(afterStaging, afterRecording, after, disks, [recorded], resumed);
    LoggedThen(before, afterStaging, after, disks, [start], disks);
  }

  lemma ResumeStartsHere(disk: Disk, state: State)
    ensures var trace := Deduplication.ResumeStaged(disk, state);
            trace.disks != [] && trace.disks[0] == disk
  {
    if state.stageDir.Some? && state.stageDir.value in disk.stages {
      PromoteAllStartsHere(disk, state.stageDir.value, ArtifactsOf(state.entries));
    }
  }

  lemma RunIsLogged(before: seq<Disk>, swept: seq<Disk>, after: seq<Disk>, start: Disk, rest: seq<Disk>)
    requires Logged(before, swept, [start]) && Logged(swept, after, rest)
    ensures Logged(before, after, [start] + rest)
  {
    var disks := [start] + rest;
    CoversOne(disks, 0);
    CoversPart(disks, 1, |disks|);
    assert disks[1..|disks|] == rest;
    LoggedThen(before, swept, after, disks, [start], rest);
  }

  /** The promotion `all` goes on from `disk` with `artifacts` still to do. */
  ghost predicate Continues(all: (seq<Disk>, Option<Error>), disk: Disk, token: Token, artifacts: seq<Artifact>)
    requires token in disk.stages
  {
    var (disks, error) := PromoteAll(disk, token, artifacts);
    && all.0 != []
    && error == all.1
    && disks[|disks| - 1] == all.0[|all.0| - 1]
    && Covers(all.0, disks)
  }

  lemma ContinuesStep(all: (seq<Disk>, Option<Error>), disk: Disk, token: Token, artifacts: seq<Artifact>)
    requires token in disk.stages && artifacts != [] && Continues(all, disk, token, artifacts)
    ensures artifacts[0].path in disk.stages[token] ==>
              Continues(all, Moved(disk, token, artifacts[0].path), token, artifacts[1..])
    ensures artifacts[0].path !in disk.stages[token] ==>
              if AlreadyPromoted(disk, artifacts[0]) then Continues(all, disk, token, artifacts[1..])
              else all.1 == Some(ArtifactMissing(artifacts[0].path)) && all.0[|all.0| - 1] == disk
  {
    if artifacts[0].path in disk.stages[token] {
      var rest := PromoteAll(Moved(disk, token, artifacts[0].path), token, artifacts[1..]).0;
      CoversPart([disk] + rest, 1, |[disk] + rest|);
      assert ([disk] + rest)[1..|[disk] + rest|] == rest;
    }
  }

  lemma {:induction false} PromoteAllStartsHere(disk: Disk, token: Token, artifacts: seq<Artifact>)
    requires token in disk.stages
    ensures PromoteAll(disk, token, artifacts).0[0] == disk
    decreases |artifacts|
  {
    if artifacts != [] && artifacts[0].path !in disk.stages[token] && AlreadyPromoted(disk, artifacts[0]) {
      PromoteAllStartsHere(disk, token, artifacts[1..]);
    }
  }
}
