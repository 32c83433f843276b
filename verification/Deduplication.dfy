/** The resumable promotion protocol of a global deduplication pass.

    `Run` gives every durable state that one invocation goes through.  A kill
    leaves one of these states on disk, except that staging directories which
    no recorded state refers to may have any content: they are being written
    or removed file by file.  The main result is that any number of killed
    invocations followed by a complete one leave exactly what a single
    uninterrupted invocation leaves.
 */
module Deduplication {
  import opened Wrappers
  import opened CanonicalRows
  import opened Dataset
  import opened SortedText
  import opened Staging

  const POLICY := "canonical-row-policy-5"

  type Token = string

  datatype Status = Staged | Complete

  datatype Entry = Entry(name: Name, parquetDigest: Digest, manifestDigest: Digest, duplicateRows: nat)

  /** The content of `.work/dedup-state.json`. */
  datatype State = State(
    policy: string, status: Status, inputs: map<Name, Digest>, outputs: map<Name, Digest>,
    inputRows: int, outputRows: int, duplicateRows: int, entries: seq<Entry>, stageDir: Option<Token>)

  /** What survives a kill: the finalized files, the recorded state and the staging directories. */
  datatype Disk = Disk(files: Files, state: Option<State>, stages: map<Token, Files>)

  datatype Outcome = Deduplicated | Skipped

  datatype Report = Report(outcome: Outcome, inputRows: int, outputRows: int, duplicateRows: int, filesChanged: nat)

  datatype Error =
    | InvalidArtifacts
    | UnknownSources
    | InputsDrifted(names: set<Name>)
    | StageMissing
    | ArtifactMissing(path: Path)

  /** The durable states an invocation goes through, first to last, and how it returns. */
  datatype Trace = Trace(disks: seq<Disk>, result: Result<Report, Error>)

  function Last(disks: seq<Disk>): Disk
    requires disks != []
  {
    disks[|disks| - 1]
  }

  function Final(trace: Trace): Disk
    requires trace.disks != []
  {
    Last(trace.disks)
  }

  /* -------------------------------------------------------------- state files */

  function StagedOutputHashes(entries: seq<Entry>): map<Name, Digest>
  {
    if entries == [] then map[] else map[entries[0].name := entries[0].parquetDigest] + StagedOutputHashes(entries[1..])
  }

  predicate InputNameDrifted(
    name: Name, current: map<Name, Digest>, expected: map<Name, Digest>, staged: map<Name, Digest>)
  {
    || name !in current
    || name !in expected
    || (current[name] != expected[name] && !(name in staged && current[name] == staged[name]))
  }

  function StagedInputDriftNames(
    current: map<Name, Digest>, expected: map<Name, Digest>, staged: map<Name, Digest>): set<Name>
  {
    set name | name in current.Keys + expected.Keys && InputNameDrifted(name, current, expected, staged)
  }

  /** The post-promotion hashes without rereading any file. */
  function PromotedOutputHashes(current: map<Name, Digest>, staged: map<Name, Digest>): map<Name, Digest>
  {
    map name | name in current :: if name in staged then staged[name] else current[name]
  }

  predicate CompleteStateMatches(state: Option<State>, current: map<Name, Digest>)
  {
    state.Some? && state.value.status == Complete && state.value.policy == POLICY && state.value.outputs == current
  }

  function EntriesOf(staged: seq<StagedFile>): seq<Entry>
  {
    if staged == [] then []
    else
      [Entry(staged[0].name, Sha256(Parquet(staged[0].rows)), Sha256(ManifestText(staged[0].manifest)),
             staged[0].dropped)]
      + EntriesOf(staged[1..])
  }

  function PayloadOf(inputs: map<Name, Digest>, inputRows: int, changed: seq<Entry>, outputRows: int): State
  {
    State(POLICY, if changed != [] then Staged else Complete,
          inputs, if changed == [] then inputs else map[],
          inputRows, outputRows, inputRows - outputRows, changed, None)
  }

  function StatePayload(fp: Fingerprint, files: Files): State
    requires Injective(fp) && Validated(files)
  {
    var names := Sorted(Names(files));
    PayloadOf(Hashes(files), CurrentRows(files, names), EntriesOf(Plan(fp, files)), OutputRows(fp, files, names))
  }

  /* ---------------------------------------------------------------- promotion */

  datatype Artifact = Artifact(path: Path, digest: Digest)

  function EntryArtifacts(entry: Entry): seq<Artifact>
  {
    [Artifact(DataFile(entry.name), entry.parquetDigest), Artifact(ManifestFile(entry.name), entry.manifestDigest)]
  }

  function ArtifactsOf(entries: seq<Entry>): seq<Artifact>
  {
    if entries == [] then [] else EntryArtifacts(entries[0]) + ArtifactsOf(entries[1..])
  }

  /** One rename of a staged file over its target. */
  function Moved(disk: Disk, token: Token, path: Path): Disk
    requires token in disk.stages && path in disk.stages[token]
  {
    disk.(files := disk.files[path := disk.stages[token][path]],
          stages := disk.stages[token := disk.stages[token] - {path}])
  }

  /** The artifact is not staged any more but its target has the recorded digest. */
  predicate AlreadyPromoted(disk: Disk, artifact: Artifact)
  {
    artifact.path in disk.files && Sha256(disk.files[artifact.path]) == artifact.digest
  }

  /** The states after each artifact, starting with the given one. */
  function PromoteAll(disk: Disk, token: Token, artifacts: seq<Artifact>): (result: (seq<Disk>, Option<Error>))
    requires token in disk.stages
    ensures result.0 != []
    decreases |artifacts|
  {
    if artifacts == [] then ([disk], None)
    else
      var artifact := artifacts[0];
      if artifact.path in disk.stages[token] then
        var (rest, error) := PromoteAll(Moved(disk, token, artifact.path), token, artifacts[1..]);
        ([disk] + rest, error)
      else if AlreadyPromoted(disk, artifact) then
        PromoteAll(disk, token, artifacts[1..])
      else
        ([disk], Some(ArtifactMissing(artifact.path)))
  }

  function CompleteState(state: State, current: map<Name, Digest>): State
  {
    state.(status := Complete, stageDir := None,
           outputs := PromotedOutputHashes(current, StagedOutputHashes(state.entries)))
  }

  function ResumedReport(state: State): Report
  {
    Report(Deduplicated, state.inputRows, state.outputRows, state.duplicateRows, |state.entries|)
  }

  /** Promote, record the completion, and only then drop the staging directory. */
  function PromotionTrace(disk: Disk, state: State, token: Token): Trace
    requires token in disk.stages
  {
    var (promoting, error) := PromoteAll(disk, token, ArtifactsOf(state.entries));
    if error.Some? then Trace(promoting, Err(error.value))
    else
      var recorded := Last(promoting).(state := Some(CompleteState(state, Hashes(disk.files))));
      var cleaned := recorded.(stages := recorded.stages - {token});
      Trace(promoting + [recorded, cleaned], Ok(ResumedReport(state)))
  }

  function ResumeStaged(disk: Disk, state: State): Trace
  {
    var drifted := StagedInputDriftNames(Hashes(disk.files), state.inputs, StagedOutputHashes(state.entries));
    if drifted != {} then Trace([disk], Err(InputsDrifted(drifted)))
    else if state.stageDir.None? || state.stageDir.value !in disk.stages then Trace([disk], Err(StageMissing))
    else PromotionTrace(disk, state, state.stageDir.value)
  }

  /* ------------------------------------------------------------ one invocation */

  /** The staging directory that the recorded state refers to. */
  function ReferencedStage(state: Option<State>): Option<Token>
  {
    if state.Some? && state.value.status == Staged then state.value.stageDir else None
  }

  /** The disk without the staging directories that no state refers to. */
  function Swept(disk: Disk): Disk
  {
    disk.(stages :=
      map token | token in disk.stages && ReferencedStage(disk.state) == Some(token) :: disk.stages[token])
  }

  /** The record of a new pass, on a disk that holds its staged files. */
  function Recorded(disk: Disk, token: Token, payload: State, staged: Files): Disk
  {
    disk.(stages := disk.stages[token := staged], state := Some(payload.(stageDir := Some(token))))
  }

  /** Stage the changed files, record the pass and carry it out. */
  function StartPass(disk: Disk, token: Token, payload: State, staged: Files): Trace
  {
    var recorded := Recorded(disk, token, payload, staged);
    var resumed := ResumeStaged(recorded, recorded.state.value);
    Trace([disk, disk.(stages := recorded.stages)] + resumed.disks, resumed.result)
  }

  /** Carry out a pass, or record that nothing had to change. */
  function CarryOut(disk: Disk, token: Token, payload: State, staged: Files): Trace
  {
    if payload.entries == []
    then Trace([disk, disk.(state := Some(payload))], Ok(Report(Skipped, payload.inputRows, payload.outputRows, 0, 0)))
    else StartPass(disk, token, payload, staged)
  }

  function StagePass(fp: Fingerprint, disk: Disk, token: Token): Trace
    requires Injective(fp) && Validated(disk.files)
  {
    CarryOut(disk, token, StatePayload(fp, disk.files), NewFiles(Plan(fp, disk.files)))
  }

  /** How an invocation ends before it starts a pass, if it does. */
  function PrepareContext(disk: Disk): (early: Option<Result<Report, Error>>)
    ensures early.None? ==> Validated(disk.files)
  {
    if Names(disk.files) == {} then Some(Ok(Report(Skipped, 0, 0, 0, 0)))
    else if !Validated(disk.files) then Some(Err(InvalidArtifacts))
    else if CompleteStateMatches(disk.state, Hashes(disk.files)) then
      Some(Ok(SkippedReport(disk.state.value, CurrentRows(disk.files, Sorted(Names(disk.files))))))
    else None
  }

  function StartFresh(fp: Fingerprint, disk: Disk, token: Token): Trace
    requires Injective(fp)
  {
    var early := PrepareContext(disk);
    if early.Some? then Trace([disk], early.value)
    else if !KnownSources(fp, disk.files) then Trace([disk], Err(UnknownSources))
    else StagePass(fp, disk, token)
  }

  function SkippedReport(state: State, outputRows: nat): Report
  {
    Report(Skipped, state.inputRows, outputRows, state.duplicateRows, 0)
  }

  /** The rest of an invocation after the sweep. */
  function AfterSweep(fp: Fingerprint, swept: Disk, token: Token): Trace
    requires Injective(fp)
  {
    if swept.state.Some? && swept.state.value.status == Staged
    then ResumeStaged(swept, swept.state.value)
    else StartFresh(fp, swept, token)
  }

  function Run(fp: Fingerprint, disk: Disk, token: Token): (trace: Trace)
    requires Injective(fp)
    ensures trace.disks != []
  {
    var rest := AfterSweep(fp, Swept(disk), token);
    Trace([disk] + rest.disks, rest.result)
  }

  /* -------------------------------------------------------------------- kills */

  /** The disks agree except on staging directories that the recorded state does not refer to. */
  ghost predicate SameButOrphans(a: Disk, b: Disk)
  {
    && a.files == b.files
    && a.state == b.state
    && var referenced := ReferencedStage(a.state);
       referenced.Some? ==>
         && (referenced.value in a.stages <==> referenced.value in b.stages)
         && (referenced.value in a.stages ==> a.stages[referenced.value] == b.stages[referenced.value])
  }

  ghost predicate Among(disk: Disk, disks: seq<Disk>)
  {
    exists k :: 0 <= k < |disks| && SameButOrphans(disk, disks[k])
  }

  /** A kill of the invocation that starts on `before` can leave `after`. */
  ghost predicate KillLeaves(fp: Fingerprint, before: Disk, token: Token, after: Disk)
    requires Injective(fp)
  {
    Among(after, Run(fp, before, token).disks)
  }

  /* ------------------------------------------------------- promoting one plan */

  /** Each path still has its old content with the new one staged, or already has the new one. */
  ghost predicate Promoting(origin: Files, staged: Files, files: Files, stage: Files)
    requires staged.Keys <= origin.Keys
  {
    && files.Keys == origin.Keys
    && stage.Keys <= staged.Keys
    && (forall path :: path in stage ==> stage[path] == staged[path])
    && (forall path :: path in origin ==>
          files[path] == if path in staged && path !in stage then staged[path] else origin[path])
  }

  /** The artifact lists a staged file with its digest. */
  ghost predicate Lists(artifact: Artifact, staged: Files)
  {
    artifact.path in staged && Sha256(staged[artifact.path]) == artifact.digest
  }

  lemma PromoteStep(origin: Files, staged: Files, disk: Disk, token: Token, artifact: Artifact)
    requires token in disk.stages && staged.Keys <= origin.Keys
    requires Promoting(origin, staged, disk.files, disk.stages[token])
    requires Lists(artifact, staged)
    ensures artifact.path in disk.stages[token] ==>
              var moved := Moved(disk, token, artifact.path);
              Promoting(origin, staged, moved.files, moved.stages[token])
    ensures artifact.path !in disk.stages[token] ==> AlreadyPromoted(disk, artifact)
  {
  }

  /** What the promotion of `artifacts` keeps, state by state, and where it ends. */
  lemma {:induction false} PromoteAllPromotes(
    origin: Files, staged: Files, disk: Disk, token: Token, artifacts: seq<Artifact>)
    requires token in disk.stages && staged.Keys <= origin.Keys
    requires Promoting(origin, staged, disk.files, disk.stages[token])
    requires forall artifact :: artifact in artifacts ==> Lists(artifact, staged)
    ensures var (disks, error) := PromoteAll(disk, token, artifacts);
            && error == None && disks[0] == disk
            && (forall k :: 0 <= k < |disks| ==>
                  && disks[k].state == disk.state
                  && token in disks[k].stages
                  && Promoting(origin, staged, disks[k].files, disks[k].stages[token]))
            && var last := disks[|disks| - 1];
               && last.stages[token].Keys <= disk.stages[token].Keys
               && (forall artifact :: artifact in artifacts ==> artifact.path !in last.stages[token])
    decreases |artifacts|
  {
    if artifacts != [] {
      var artifact := artifacts[0];
      PromoteStep(origin, staged, disk, token, artifact);
      if artifact.path in disk.stages[token] {
        PromoteAllPromotes(origin, staged, Moved(disk, token, artifact.path), token, artifacts[1..]);
      } else {
        PromoteAllPromotes(origin, staged, disk, token, artifacts[1..]);
      }
    }
  }

  lemma {:induction false} PromoteAllKeepsOtherStages(disk: Disk, token: Token, artifacts: seq<Artifact>)
    requires token in disk.stages
    ensures forall k :: 0 <= k < |PromoteAll(disk, token, artifacts).0| ==>
              PromoteAll(disk, token, artifacts).0[k].stages.Keys == disk.stages.Keys
    decreases |artifacts|
  {
    if artifacts != [] {
      var artifact := artifacts[0];
      if artifact.path in disk.stages[token] {
        PromoteAllKeepsOtherStages(Moved(disk, token, artifact.path), token, artifacts[1..]);
      } else if AlreadyPromoted(disk, artifact) {
        PromoteAllKeepsOtherStages(disk, token, artifacts[1..]);
      }
    }
  }

  /** The recorded entries name exactly the staged files, with their digests. */
  ghost predicate Describes(entries: seq<Entry>, staged: Files)
  {
    && ListsAll(ArtifactsOf(entries), staged)
    && (forall name :: name in StagedOutputHashes(entries) <==> DataFile(name) in staged)
    && (forall name :: name in StagedOutputHashes(entries) ==>
          StagedOutputHashes(entries)[name] == Sha256(staged[DataFile(name)]))
  }

  /** A planned pass: the files it read, the files it staged and the record it wrote. */
  datatype Pass = Pass(origin: Files, staged: Files, payload: State)
  {
    ghost predicate WellFormed()
    {
      && staged.Keys <= origin.Keys
      && payload.status == Staged
      && payload.inputs == Hashes(origin)
      && Describes(payload.entries, staged)
    }

    function After(): Files
    {
      origin + staged
    }

    /** The record of the finished pass. */
    function FinalState(): State
    {
      payload.(status := Complete, stageDir := None, outputs := Hashes(After()))
    }

    /** The pass is recorded and each artifact is either staged or in place. */
    ghost predicate UnderWay(disk: Disk)
      requires WellFormed()
    {
      && disk.state.Some? && disk.state.value.stageDir.Some?
      && var token := disk.state.value.stageDir.value;
      && disk.state.value == payload.(stageDir := Some(token))
      && token in disk.stages
      && Promoting(origin, staged, disk.files, disk.stages[token])
    }

    ghost predicate Done(disk: Disk)
    {
      disk.files == After() && disk.state == Some(FinalState())
    }
  }

  const EMPTY_RECORD := State(POLICY, Staged, map[], map[], 0, 0, 0, [], None)

  type PlannedPass = pass: Pass | pass.WellFormed() witness Pass(map[], map[], EMPTY_RECORD)

  /** The drift check accepts every state of a promotion. */
  lemma UnderWayIsNoDrift(pass: PlannedPass, disk: Disk)
    requires pass.UnderWay(disk)
    ensures StagedInputDriftNames(
              Hashes(disk.files), pass.payload.inputs, StagedOutputHashes(pass.payload.entries)) == {}
  {
    assert Names(disk.files) == Names(pass.origin);
    forall name | name in Names(disk.files)
      ensures !InputNameDrifted(name, Hashes(disk.files), Hashes(pass.origin), StagedOutputHashes(pass.payload.entries))
    {
      assert DataFile(name) in pass.origin;
    }
  }

  /** The file is none of the recorded inputs, or holds neither what it did nor what the pass staged for it. */
  ghost predicate IsForeign(pass: PlannedPass, files: Files, name: Name)
  {
    || name !in Names(files)
    || name !in Names(pass.origin)
    || (files[DataFile(name)] != pass.origin[DataFile(name)]
        && !(DataFile(name) in pass.staged && files[DataFile(name)] == pass.staged[DataFile(name)]))
  }

  ghost function ForeignFiles(pass: PlannedPass, files: Files): set<Name>
  {
    set name | name in Names(files) + Names(pass.origin) && IsForeign(pass, files, name)
  }

  /** A recorded pass is refused exactly when some file is foreign to it; it names all of them and changes no file. */
  lemma DriftIsRefusedExactly(fp: Fingerprint, pass: PlannedPass, disk: Disk, stage: Token, token: Token)
    requires Injective(fp) && disk.state == Some(pass.payload.(stageDir := Some(stage)))
    ensures var foreign, trace := ForeignFiles(pass, disk.files), Run(fp, disk, token);
            if foreign != {}
            then trace.result == Err(InputsDrifted(foreign)) && trace.disks == [disk, Swept(disk)]
            else
              && (trace.result.Ok? || !trace.result.error.InputsDrifted?)
              && (trace.result == Err(StageMissing) <==> stage !in disk.stages)
  {
    DriftNamesAreForeign(pass, disk.files);
    PromotionNeverDrifts(Swept(disk), ArtifactsOf(pass.payload.entries), stage);
  }

  lemma DriftNamesAreForeign(pass: PlannedPass, files: Files)
    ensures StagedInputDriftNames(Hashes(files), pass.payload.inputs, StagedOutputHashes(pass.payload.entries))
         == ForeignFiles(pass, files)
  {
  }

  lemma {:induction false} PromotionNeverDrifts(disk: Disk, artifacts: seq<Artifact>, token: Token)
    ensures token in disk.stages ==>
              var error := PromoteAll(disk, token, artifacts).1; error.None? || error.value.ArtifactMissing?
    decreases |artifacts|
  {
    if artifacts != [] && token in disk.stages {
      if artifacts[0].path in disk.stages[token] {
        PromotionNeverDrifts(Moved(disk, token, artifacts[0].path), artifacts[1..], token);
      } else {
        PromotionNeverDrifts(disk, artifacts[1..], token);
      }
    }
  }

  /** The artifact can be had: it is staged, or stands in its place with the recorded digest. */
  predicate Available(disk: Disk, token: Token, artifact: Artifact)
    requires token in disk.stages
  {
    || artifact.path in disk.stages[token]
    || (artifact.path in disk.files && Sha256(disk.files[artifact.path]) == artifact.digest)
  }

  lemma MoveKeepsAvailable(disk: Disk, token: Token, path: Path, artifact: Artifact)
    requires token in disk.stages && path in disk.stages[token] && artifact.path != path
    ensures Available(Moved(disk, token, path), token, artifact) <==> Available(disk, token, artifact)
  {
  }

  /** Promotion ends with an error exactly when some artifact is not available, and names the first one. */
  lemma {:induction false} MissingArtifactIsNamed(disk: Disk, token: Token, artifacts: seq<Artifact>)
    requires token in disk.stages
    requires forall i, j :: 0 <= i < j < |artifacts| ==> artifacts[i].path != artifacts[j].path
    ensures PromoteAll(disk, token, artifacts).1.None?
       <==> forall i :: 0 <= i < |artifacts| ==> Available(disk, token, artifacts[i])
    ensures forall i :: 0 <= i < |artifacts| && !Available(disk, token, artifacts[i])
                        && (forall j :: 0 <= j < i ==> Available(disk, token, artifacts[j])) ==>
              PromoteAll(disk, token, artifacts).1 == Some(ArtifactMissing(artifacts[i].path))
    decreases |artifacts|
  {
    if artifacts != [] {
      var first, rest := artifacts[0], artifacts[1..];
      assert forall i :: 0 <= i < |rest| ==> rest[i] == artifacts[i + 1];
      if first.path in disk.stages[token] {
        forall i | 0 <= i < |rest|
          ensures Available(Moved(disk, token, first.path), token, rest[i]) <==> Available(disk, token, rest[i])
        {
          MoveKeepsAvailable(disk, token, first.path, rest[i]);
        }
        MissingArtifactIsNamed(Moved(disk, token, first.path), token, rest);
      } else {
        MissingArtifactIsNamed(disk, token, rest);
      }
    }
  }

  /** The hashes computed without rereading are the hashes of the promoted files. */
  lemma PromotedHashesAreReal(pass: PlannedPass, disk: Disk)
    requires pass.UnderWay(disk)
    ensures PromotedOutputHashes(Hashes(disk.files), StagedOutputHashes(pass.payload.entries)) == Hashes(pass.After())
  {
    assert pass.After().Keys == pass.origin.Keys;
    assert Names(disk.files) == Names(pass.After());
    forall name | name in Names(pass.After())
      ensures PromotedOutputHashes(Hashes(disk.files), StagedOutputHashes(pass.payload.entries))[name]
           == Hashes(pass.After())[name]
    {
      assert DataFile(name) in pass.origin;
    }
  }

  /** A resumed pass stays under way until it is done, and leaves no staging directory. */
  ghost predicate Finishes(pass: PlannedPass, trace: Trace)
  {
    && trace.disks != []
    && (forall k :: 0 <= k < |trace.disks| ==> pass.UnderWay(trace.disks[k]) || pass.Done(trace.disks[k]))
    && trace.result == Ok(ResumedReport(pass.payload))
    && Final(trace) == Disk(pass.After(), Some(pass.FinalState()), map[])
  }

  ghost predicate AllUnderWay(pass: PlannedPass, disks: seq<Disk>, stages: set<Token>)
  {
    forall k :: 0 <= k < |disks| ==> pass.UnderWay(disks[k]) && disks[k].stages.Keys == stages
  }

  /** The promotion of every recorded artifact succeeds, stays under way, and ends with all files in place. */
  ghost predicate PromotesAll(pass: PlannedPass, disk: Disk, promoting: seq<Disk>)
  {
    && promoting != []
    && AllUnderWay(pass, promoting, disk.stages.Keys)
    && Last(promoting).files == pass.After()
  }

  lemma PromotionStaysUnderWay(pass: PlannedPass, disk: Disk, token: Token, artifacts: seq<Artifact>)
    requires pass.UnderWay(disk) && disk.state.value.stageDir == Some(token)
    requires artifacts == ArtifactsOf(pass.payload.entries)
    ensures AllUnderWay(pass, PromoteAll(disk, token, artifacts).0, disk.stages.Keys)
    ensures PromoteAll(disk, token, artifacts).1 == None
  {
    PromoteAllPromotes(pass.origin, pass.staged, disk, token, artifacts);
    PromoteAllKeepsOtherStages(disk, token, artifacts);
  }

  /** With nothing left in the staging directory every file is in place. */
  lemma NothingLeftToPromote(origin: Files, staged: Files, files: Files, stage: Files)
    requires staged.Keys <= origin.Keys && Promoting(origin, staged, files, stage)
    requires forall path :: path in staged ==> path !in stage
    ensures files == origin + staged
  {
  }

  /** Every staged path has an artifact that promotes it. */
  ghost predicate ListsAll(artifacts: seq<Artifact>, staged: Files)
  {
    && (forall artifact :: artifact in artifacts ==> Lists(artifact, staged))
    && (forall path :: path in staged ==> exists artifact :: artifact in artifacts && artifact.path == path)
  }

  lemma AllPromoted(origin: Files, staged: Files, disk: Disk, token: Token, artifacts: seq<Artifact>)
    requires token in disk.stages && staged.Keys <= origin.Keys
    requires Promoting(origin, staged, disk.files, disk.stages[token])
    requires ListsAll(artifacts, staged)
    ensures Last(PromoteAll(disk, token, artifacts).0).files == origin + staged
  {
    PromoteAllPromotes(origin, staged, disk, token, artifacts);
    var promoted := Last(PromoteAll(disk, token, artifacts).0);
    forall path | path in staged
      ensures path !in promoted.stages[token]
    {
      var artifact :| artifact in artifacts && artifact.path == path;
    }
    NothingLeftToPromote(origin, staged, promoted.files, promoted.stages[token]);
  }

  lemma PromotionEnds(pass: PlannedPass, disk: Disk, token: Token, artifacts: seq<Artifact>)
    requires pass.UnderWay(disk) && disk.state.value.stageDir == Some(token)
    requires artifacts == ArtifactsOf(pass.payload.entries)
    ensures Last(PromoteAll(disk, token, artifacts).0).files == pass.After()
  {
    AllPromoted(pass.origin, pass.staged, disk, token, artifacts);
  }

  lemma PromotionPromotesAll(pass: PlannedPass, disk: Disk, token: Token, artifacts: seq<Artifact>)
    requires pass.UnderWay(disk) && disk.state.value.stageDir == Some(token)
    requires artifacts == ArtifactsOf(pass.payload.entries)
    ensures PromotesAll(pass, disk, PromoteAll(disk, token, artifacts).0)
    ensures PromoteAll(disk, token, artifacts).1 == None
  {
    PromotionStaysUnderWay(pass, disk, token, artifacts);
    PromotionEnds(pass, disk, token, artifacts);
  }

  /** The two states after the promotion: the record is complete, then the directory is gone. */
  lemma RecordFinishes(pass: PlannedPass, disk: Disk, token: Token, promoted: Disk)
    requires pass.UnderWay(disk) && disk.state.value.stageDir == Some(token)
    requires promoted.files == pass.After() && promoted.stages.Keys == {token}
    ensures var recorded := promoted.(state := Some(CompleteState(disk.state.value, Hashes(disk.files))));
            && pass.Done(recorded)
            && recorded.(stages := recorded.stages - {token}) == Disk(pass.After(), Some(pass.FinalState()), map[])
  {
    PromotedHashesAreReal(pass, disk);
    assert promoted.stages - {token} == map[];
  }

  /** The trace of a resumption whose checks all pass. */
  function ResumedTrace(disk: Disk, state: State, token: Token, promoting: seq<Disk>): Trace
    requires promoting != []
  {
    var recorded := Last(promoting).(state := Some(CompleteState(state, Hashes(disk.files))));
    Trace(promoting + [recorded, recorded.(stages := recorded.stages - {token})], Ok(ResumedReport(state)))
  }

  lemma ResumeTrace(disk: Disk, state: State, token: Token, artifacts: seq<Artifact>)
    requires StagedInputDriftNames(Hashes(disk.files), state.inputs, StagedOutputHashes(state.entries)) == {}
    requires state.stageDir == Some(token) && token in disk.stages && artifacts == ArtifactsOf(state.entries)
    requires PromoteAll(disk, token, artifacts).1 == None
    ensures ResumeStaged(disk, state) == ResumedTrace(disk, state, token, PromoteAll(disk, token, artifacts).0)
  {
  }

  lemma ResumedTraceFinishes(pass: PlannedPass, disk: Disk, token: Token, promoting: seq<Disk>)
    requires pass.UnderWay(disk) && disk.state.value.stageDir == Some(token) && disk.stages.Keys == {token}
    requires PromotesAll(pass, disk, promoting)
    ensures Finishes(pass, ResumedTrace(disk, disk.state.value, token, promoting))
  {
    var promoted := Last(promoting);
    RecordFinishes(pass, disk, token, promoted);
    var recorded := promoted.(state := Some(CompleteState(disk.state.value, Hashes(disk.files))));
    FinishesAfter(pass, promoting, {token}, recorded,
                  recorded.(stages := recorded.stages - {token}));
  }

  lemma ResumeFinishes(pass: PlannedPass, disk: Disk)
    requires pass.UnderWay(disk)
    requires disk.stages.Keys == {disk.state.value.stageDir.value}
    ensures Finishes(pass, ResumeStaged(disk, disk.state.value))
  {
    var token := disk.state.value.stageDir.value;
    var artifacts := ArtifactsOf(pass.payload.entries);
    UnderWayIsNoDrift(pass, disk);
    PromotionPromotesAll(pass, disk, token, artifacts);
    ResumedTraceFinishes(pass, disk, token, PromoteAll(disk, token, artifacts).0);
    ResumeTrace(disk, disk.state.value, token, artifacts);
  }

  lemma FinishesAfter(
    pass: PlannedPass, promoting: seq<Disk>, stages: set<Token>, recorded: Disk, cleaned: Disk)
    requires AllUnderWay(pass, promoting, stages)
    requires pass.Done(recorded) && cleaned == Disk(pass.After(), Some(pass.FinalState()), map[])
    ensures Finishes(pass, Trace(promoting + [recorded, cleaned], Ok(ResumedReport(pass.payload))))
  {
    var disks := promoting + [recorded, cleaned];
    forall k | 0 <= k < |disks|
      ensures pass.UnderWay(disks[k]) || pass.Done(disks[k])
    {
      if k < |promoting| {
        assert disks[k] == promoting[k];
      }
    }
  }

  /* entries against the staged files */

  lemma {:induction false} HashesOfStaged(staged: seq<StagedFile>, name: Name)
    ensures var hashes := StagedOutputHashes(EntriesOf(staged));
            && (name in hashes <==> DataFile(name) in NewFiles(staged))
            && (name in hashes ==> hashes[name] == Sha256(NewFiles(staged)[DataFile(name)]))
  {
    if staged != [] {
      HashesOfStaged(staged[1..], name);
      assert EntriesOf(staged)[1..] == EntriesOf(staged[1..]);
    }
  }

  /** No two staged pairs share a name with different contents. */
  ghost predicate Consistent(staged: seq<StagedFile>)
  {
    forall a, b :: a in staged && b in staged && a.name == b.name ==> a == b
  }

  lemma {:induction false} NewFilesFromPair(staged: seq<StagedFile>, pair: StagedFile)
    requires Consistent(staged) && pair in staged
    ensures DataFile(pair.name) in NewFiles(staged) && NewFiles(staged)[DataFile(pair.name)] == Parquet(pair.rows)
    ensures ManifestFile(pair.name) in NewFiles(staged)
    ensures NewFiles(staged)[ManifestFile(pair.name)] == ManifestText(pair.manifest)
  {
    if pair in staged[1..] {
      NewFilesFromPair(staged[1..], pair);
    } else {
      assert pair == staged[0];
      forall other | other in staged[1..]
        ensures other.name != pair.name
      {
      }
      NewFilesNames(staged[1..], DataFile(pair.name));
      NewFilesNames(staged[1..], ManifestFile(pair.name));
    }
  }

  lemma {:induction false} NewFilesNames(staged: seq<StagedFile>, path: Path)
    ensures path in NewFiles(staged) <==> exists pair :: pair in staged && pair.name == path.name
  {
    if staged != [] {
      NewFilesNames(staged[1..], path);
      if pair :| pair in staged && pair.name == path.name {
        assert pair == staged[0] || pair in staged[1..];
      }
      assert staged[0] in staged;
    }
  }

  /** The recorded entries list exactly the staged files, with their digests. */
  lemma {:induction false} ArtifactsListStaged(all: seq<StagedFile>, staged: seq<StagedFile>)
    requires Consistent(all) && forall pair :: pair in staged ==> pair in all
    ensures forall artifact :: artifact in ArtifactsOf(EntriesOf(staged)) ==> Lists(artifact, NewFiles(all))
    ensures forall path :: path in NewFiles(staged) ==>
              exists artifact :: artifact in ArtifactsOf(EntriesOf(staged)) && artifact.path == path
  {
    if staged != [] {
      ArtifactsListStaged(all, staged[1..]);
      NewFilesFromPair(all, staged[0]);
      var entry := EntriesOf(staged)[0];
      assert EntriesOf(staged)[1..] == EntriesOf(staged[1..]);
      var first, rest := EntryArtifacts(entry), ArtifactsOf(EntriesOf(staged[1..]));
      assert ArtifactsOf(EntriesOf(staged)) == first + rest;
      forall path | path in NewFiles(staged)
        ensures exists artifact: Artifact :: artifact in first + rest && artifact.path == path
      {
        if path in NewFiles(staged[1..]) {
          var artifact :| artifact in rest && artifact.path == path;
          assert artifact in first + rest;
        } else {
          assert first[0] in first + rest && first[1] in first + rest;
          assert path == first[0].path || path == first[1].path;
        }
      }
    }
  }

  lemma {:induction false} ChangesAreConsistent(fp: Fingerprint, files: Files, names: seq<Name>)
    requires Injective(fp) && AllHaveManifests(files, names)
    ensures Consistent(StageChanges(fp, files, names))
    ensures forall pair :: pair in StageChanges(fp, files, names) ==>
              pair.name in names && StageSource(fp, files, pair.name) == [pair]
  {
    if names != [] {
      ChangesAreConsistent(fp, files, names[1..]);
    }
  }

  /* ---------------------------------------------------------- the recovery proof */

  /** A dataset on which a pass may start: valid artifacts and no pass under way. */
  ghost predicate ValidOrigin(fp: Fingerprint, origin: Disk)
    requires Injective(fp)
  {
    && (origin.state.Some? ==> origin.state.value.status == Complete)
    && (Names(origin.files) != {} ==> Validated(origin.files) && KnownSources(fp, origin.files))
  }

  /** The pass has something to record: it is not already recorded as complete. */
  ghost predicate NeedsPass(origin: Disk)
  {
    Names(origin.files) != {} && !CompleteStateMatches(origin.state, Hashes(origin.files))
  }

  /** A pass is needed unless a complete one is on record, under this policy and with these very files. */
  lemma NeedsPassMeaning(origin: Disk)
    ensures NeedsPass(origin) <==>
              && Names(origin.files) != {}
              && (origin.state.Some? && origin.state.value.status == Complete && origin.state.value.policy == POLICY ==>
                    origin.state.value.outputs.Keys != Names(origin.files)
                    || exists name :: name in Names(origin.files)
                         && origin.state.value.outputs[name] != Sha256(origin.files[DataFile(name)]))
  {
    if origin.state.Some? && origin.state.value.outputs.Keys == Names(origin.files) {
      var outputs, hashes := origin.state.value.outputs, Hashes(origin.files);
      if forall name :: name in hashes ==> outputs[name] == hashes[name] {
        assert outputs == hashes;
      }
    }
  }

  /** What one invocation will do to the dataset it finds: nothing, or carry out a pass. */
  datatype Job = Job(origin: Disk, needed: bool, pass: Pass)
  {
    ghost predicate WellFormed()
    {
      && (origin.state.Some? ==> origin.state.value.status == Complete)
      && pass.origin == origin.files
      && (pass.payload.entries != [] ==> pass.WellFormed())
      && (pass.payload.entries == [] ==> pass.payload == pass.FinalState() && pass.After() == origin.files)
    }

    /** The dataset and record that one uninterrupted invocation leaves. */
    function Target(): Disk
    {
      if needed then Disk(pass.After(), Some(pass.FinalState()), map[]) else origin.(stages := map[])
    }

    ghost predicate IsBefore(disk: Disk)
    {
      disk.files == origin.files && disk.state == origin.state
    }

    ghost predicate IsPromoting(disk: Disk)
    {
      needed && pass.payload.entries != [] && pass.WellFormed() && pass.UnderWay(disk)
    }

    ghost predicate IsAfter(disk: Disk)
    {
      needed && pass.Done(disk)
    }

    /** What holds of the disk at every instant of every invocation. */
    ghost predicate Recoverable(disk: Disk)
    {
      IsBefore(disk) || IsPromoting(disk) || IsAfter(disk)
    }

    /** The trace stays recoverable, succeeds, and ends with the target. */
    ghost predicate Completes(trace: Trace)
    {
      && trace.disks != []
      && (forall k :: 0 <= k < |trace.disks| ==> Recoverable(trace.disks[k]))
      && trace.result.Ok?
      && Final(trace) == Target()
    }
  }

  type PlannedJob = job: Job | job.WellFormed()
    witness Job(Disk(map[], None, map[]), false, Pass(map[], map[], EMPTY_RECORD.(status := Complete)))

  ghost function JobOf(fp: Fingerprint, origin: Disk): Job
    requires Injective(fp) && ValidOrigin(fp, origin)
  {
    if NeedsPass(origin)
    then Job(origin, true, Pass(origin.files, NewFiles(Plan(fp, origin.files)), StatePayload(fp, origin.files)))
    else
      Job(origin, false, Pass(origin.files, map[], EMPTY_RECORD.(status := Complete, outputs := Hashes(origin.files))))
  }

  lemma EntriesCount(staged: seq<StagedFile>)
    ensures EntriesOf(staged) == [] <==> staged == []
  {
  }

  /** What the rest of the proof needs to know about the plan. */
  lemma JobIsPlanned(fp: Fingerprint, origin: Disk)
    requires Injective(fp) && ValidOrigin(fp, origin)
    ensures JobOf(fp, origin).WellFormed()
    ensures var pass := JobOf(fp, origin).pass;
            NeedsPass(origin) ==> Names(pass.After()) != {} && Validated(pass.After())
  {
    if NeedsPass(origin) {
      PlanIsDescribed(fp, origin.files);
      PromotedIsValidated(fp, origin.files);
    } else {
      assert origin.files + map[] == origin.files;
    }
  }

  lemma PlanIsDescribed(fp: Fingerprint, files: Files)
    requires Injective(fp) && Validated(files)
    ensures var staged := Plan(fp, files);
            && (EntriesOf(staged) == [] <==> staged == [])
            && NewFiles(staged).Keys <= files.Keys
            && Names(files + NewFiles(staged)) == Names(files)
            && Describes(EntriesOf(staged), NewFiles(staged))
            && (staged == [] ==> files + NewFiles(staged) == files)
  {
    var staged := Plan(fp, files);
    EntriesCount(staged);
    PromotedKeepsPaths(fp, files);
    ChangesAreConsistent(fp, files, Sorted(Names(files)));
    ArtifactsListStaged(staged, staged);
    forall name: Name
      ensures var hashes := StagedOutputHashes(EntriesOf(staged));
              && (name in hashes <==> DataFile(name) in NewFiles(staged))
              && (name in hashes ==> hashes[name] == Sha256(NewFiles(staged)[DataFile(name)]))
    {
      HashesOfStaged(staged, name);
    }
    if staged == [] {
      assert NewFiles(staged) == map[];
      assert files + NewFiles(staged) == files;
    }
  }

  lemma KillKeepsRecoverable(job: PlannedJob, disk: Disk, left: Disk)
    requires job.Recoverable(disk) && SameButOrphans(left, disk)
    ensures job.Recoverable(left)
  {
  }

  lemma CompletesAfterStep(job: PlannedJob, disk: Disk, rest: Trace)
    requires job.Recoverable(disk) && job.Completes(rest)
    ensures job.Completes(Trace([disk] + rest.disks, rest.result))
  {
    var all := [disk] + rest.disks;
    forall k | 0 <= k < |all|
      ensures job.Recoverable(all[k])
    {
      if k > 0 {
        assert all[k] == rest.disks[k - 1];
      }
    }
  }

  lemma ResumeCompletes(job: PlannedJob, disk: Disk)
    requires job.IsPromoting(disk)
    requires disk.stages.Keys == {disk.state.value.stageDir.value}
    ensures job.Completes(ResumeStaged(disk, disk.state.value))
  {
    ResumeFinishes(job.pass, disk);
    var trace := ResumeStaged(disk, disk.state.value);
    forall k | 0 <= k < |trace.disks|
      ensures job.Recoverable(trace.disks[k])
    {
      assert job.pass.UnderWay(trace.disks[k]) || job.pass.Done(trace.disks[k]);
    }
  }

  lemma RecordedIsPromoting(job: PlannedJob, disk: Disk, token: Token)
    requires job.needed && job.pass.payload.entries != [] && job.IsBefore(disk) && disk.stages == map[]
    ensures var recorded := Recorded(disk, token, job.pass.payload, job.pass.staged);
            job.IsPromoting(recorded) && recorded.stages.Keys == {recorded.state.value.stageDir.value}
  {
  }

  /** A pass that starts on its origin is carried out to the end. */
  lemma StartPassCompletes(job: PlannedJob, disk: Disk, token: Token, trace: Trace)
    requires job.needed && job.pass.payload.entries != [] && job.IsBefore(disk) && disk.stages == map[]
    requires trace == StartPass(disk, token, job.pass.payload, job.pass.staged)
    ensures job.Completes(trace)
  {
    var recorded := Recorded(disk, token, job.pass.payload, job.pass.staged);
    RecordedIsPromoting(job, disk, token);
    ResumeCompletes(job, recorded);
    TwoStepsBefore(job, disk, disk.(stages := recorded.stages), ResumeStaged(recorded, recorded.state.value));
  }

  lemma TwoStepsBefore(job: PlannedJob, first: Disk, second: Disk, rest: Trace)
    requires job.Recoverable(first) && job.Recoverable(second) && job.Completes(rest)
    ensures job.Completes(Trace([first, second] + rest.disks, rest.result))
  {
    CompletesAfterStep(job, second, rest);
    CompletesAfterStep(job, first, Trace([second] + rest.disks, rest.result));
    assert [first] + ([second] + rest.disks) == [first, second] + rest.disks;
  }

  /** How a fresh start goes on a dataset that no pass has touched yet. */
  lemma FreshStart(fp: Fingerprint, origin: Disk, disk: Disk, token: Token)
    requires Injective(fp) && ValidOrigin(fp, origin) && disk.files == origin.files && disk.state == origin.state
    ensures var job, trace := JobOf(fp, origin), StartFresh(fp, disk, token);
            if !job.needed then trace.disks == [disk] && trace.result.Ok? && trace.result.value.outcome == Skipped
            else if job.pass.payload.entries == [] then
              && trace.disks == [disk, disk.(state := Some(job.pass.payload))]
              && trace.result == Ok(Report(Skipped, job.pass.payload.inputRows, job.pass.payload.outputRows, 0, 0))
            else trace == StartPass(disk, token, job.pass.payload, job.pass.staged)
  {
  }

  lemma FreshStartCompletes(fp: Fingerprint, origin: Disk, disk: Disk, token: Token)
    requires Injective(fp) && ValidOrigin(fp, origin)
    requires disk == origin.(stages := map[])
    ensures JobOf(fp, origin).Completes(StartFresh(fp, disk, token))
  {
    var job := JobOf(fp, origin);
    JobIsPlanned(fp, origin);
    FreshStart(fp, origin, disk, token);
    if job.needed {
      if job.pass.payload.entries != [] {
        StartPassCompletes(job, disk, token, StartFresh(fp, disk, token));
      }
    }
  }

  /** After the job the record matches, so a fresh start skips at once. */
  lemma TargetStartSkips(fp: Fingerprint, origin: Disk, target: Disk, token: Token)
    requires Injective(fp) && ValidOrigin(fp, origin) && target == JobOf(fp, origin).Target()
    ensures StartFresh(fp, target, token).disks == [target]
    ensures StartFresh(fp, target, token).result.Ok? && StartFresh(fp, target, token).result.value.outcome == Skipped
  {
    JobIsPlanned(fp, origin);
    if !NeedsPass(origin) {
      FreshStart(fp, origin, target, token);
    }
  }

  lemma TargetSkips(fp: Fingerprint, origin: Disk, target: Disk, token: Token)
    requires Injective(fp) && ValidOrigin(fp, origin) && target == JobOf(fp, origin).Target()
    ensures Run(fp, target, token).disks == [target, target]
    ensures Run(fp, target, token).result.Ok? && Run(fp, target, token).result.value.outcome == Skipped
  {
    TargetStartSkips(fp, origin, target, token);
    TargetIsNotStaged(fp, origin);
    assert Swept(target) == target;
  }

  lemma TargetIsNotStaged(fp: Fingerprint, origin: Disk)
    requires Injective(fp) && ValidOrigin(fp, origin)
    ensures var target := JobOf(fp, origin).Target();
            target.stages == map[] && (target.state.Some? ==> target.state.value.status == Complete)
  {
  }

  lemma SweptPromotionCompletes(job: PlannedJob, disk: Disk)
    requires job.IsPromoting(disk)
    ensures Swept(disk).state == disk.state && job.Completes(ResumeStaged(Swept(disk), disk.state.value))
  {
    var swept := Swept(disk);
    assert swept.stages.Keys == {disk.state.value.stageDir.value};
    assert job.IsPromoting(swept);
    ResumeCompletes(job, swept);
  }

  lemma SweptTarget(job: PlannedJob, disk: Disk)
    requires job.IsAfter(disk)
    ensures Swept(disk) == job.Target()
  {
  }

  lemma SweptBefore(job: PlannedJob, disk: Disk)
    requires job.IsBefore(disk)
    ensures Swept(disk) == job.origin.(stages := map[])
  {
    assert Swept(disk).stages == map[];
  }

  lemma TargetCompletes(job: PlannedJob, trace: Trace)
    requires job.needed && trace.disks == [job.Target()] && trace.result.Ok?
    ensures job.Completes(trace)
  {
  }

  lemma AfterSweepCompletes(fp: Fingerprint, origin: Disk, job: PlannedJob, disk: Disk, token: Token)
    requires Injective(fp) && ValidOrigin(fp, origin) && job == JobOf(fp, origin)
    requires job.Recoverable(disk)
    ensures job.Completes(AfterSweep(fp, Swept(disk), token))
  {
    if job.IsBefore(disk) {
      SweptBefore(job, disk);
      FreshStartCompletes(fp, origin, Swept(disk), token);
    } else if job.IsPromoting(disk) {
      SweptPromotionCompletes(job, disk);
    } else {
      SweptTarget(job, disk);
      TargetIsNotStaged(fp, origin);
      TargetStartSkips(fp, origin, Swept(disk), token);
      TargetCompletes(job, StartFresh(fp, Swept(disk), token));
    }
  }

  /** From every recoverable disk a complete invocation reaches the target, never failing on the way. */
  lemma RunCompletes(fp: Fingerprint, origin: Disk, disk: Disk, token: Token)
    requires Injective(fp) && ValidOrigin(fp, origin) && JobOf(fp, origin).Recoverable(disk)
    ensures JobOf(fp, origin).Completes(Run(fp, disk, token))
  {
    JobIsPlanned(fp, origin);
    AfterSweepCompletes(fp, origin, JobOf(fp, origin), disk, token);
    CompletesAfterStep(JobOf(fp, origin), disk, AfterSweep(fp, Swept(disk), token));
  }

  /** With no pass on record an invocation fails exactly on artifacts that do not pass the validations, or
      whose rows come from sources that no manifest names when there is something to do; it then changes
      neither files nor record. */
  lemma FreshRunFailsExactlyWhen(fp: Fingerprint, disk: Disk, token: Token)
    requires Injective(fp) && (disk.state.Some? ==> disk.state.value.status == Complete)
    ensures var trace, files := Run(fp, disk, token), disk.files;
            && (trace.result == Err(InvalidArtifacts) <==> Names(files) != {} && !Validated(files))
            && (trace.result == Err(UnknownSources) <==>
                  NeedsPass(disk) && Validated(files) && !KnownSources(fp, files))
            && (trace.result.Err? ==>
                  && (trace.result.error.InvalidArtifacts? || trace.result.error.UnknownSources?)
                  && forall k :: 0 <= k < |trace.disks| ==>
                       trace.disks[k].files == files && trace.disks[k].state == disk.state)
  {
    if ValidOrigin(fp, disk) {
      JobIsPlanned(fp, disk);
      RunCompletes(fp, disk, disk, token);
    }
  }

  /** `history` starts on a valid dataset and every later disk is left by a killed invocation. */
  ghost predicate KilledRuns(fp: Fingerprint, history: seq<Disk>, tokens: seq<Token>)
    requires Injective(fp)
  {
    && |history| == |tokens| + 1
    && ValidOrigin(fp, history[0])
    && forall i :: 0 <= i < |tokens| ==> KillLeaves(fp, history[i], tokens[i], history[i + 1])
  }

  lemma {:induction false} KilledRunsAreRecoverable(fp: Fingerprint, history: seq<Disk>, tokens: seq<Token>, i: nat)
    requires Injective(fp) && KilledRuns(fp, history, tokens) && i < |history|
    ensures JobOf(fp, history[0]).Recoverable(history[i])
  {
    if i > 0 {
      KilledRunsAreRecoverable(fp, history, tokens, i - 1);
      RunCompletes(fp, history[0], history[i - 1], tokens[i - 1]);
      JobIsPlanned(fp, history[0]);
      var trace := Run(fp, history[i - 1], tokens[i - 1]);
      assert KillLeaves(fp, history[i - 1], tokens[i - 1], history[i]);
      var k :| 0 <= k < |trace.disks| && SameButOrphans(history[i], trace.disks[k]);
      KillKeepsRecoverable(JobOf(fp, history[0]), trace.disks[k], history[i]);
    }
  }

  /** Main result: after any number of kills at any steps, a complete invocation succeeds and
      leaves exactly the disk that one uninterrupted invocation leaves. */
  lemma KillsAreHarmless(fp: Fingerprint, history: seq<Disk>, tokens: seq<Token>, token: Token, other: Token)
    requires Injective(fp) && KilledRuns(fp, history, tokens)
    ensures var last := Run(fp, history[|history| - 1], token);
            last.result.Ok? && Final(last) == Final(Run(fp, history[0], other))
  {
    KilledRunsAreRecoverable(fp, history, tokens, |history| - 1);
    RunCompletes(fp, history[0], history[|history| - 1], token);
    RunCompletes(fp, history[0], history[0], other);
  }

  /** A further invocation is skipped and changes nothing. */
  lemma FurtherRunChangesNothing(fp: Fingerprint, history: seq<Disk>, tokens: seq<Token>, token: Token, other: Token)
    requires Injective(fp) && KilledRuns(fp, history, tokens)
    ensures var done := Final(Run(fp, history[|history| - 1], token));
            var again := Run(fp, done, other);
            && again.result.Ok? && again.result.value.outcome == Skipped
            && forall k :: 0 <= k < |again.disks| ==> again.disks[k] == done
  {
    KilledRunsAreRecoverable(fp, history, tokens, |history| - 1);
    RunCompletes(fp, history[0], history[|history| - 1], token);
    TargetSkips(fp, history[0], JobOf(fp, history[0]).Target(), other);
  }

  /** What the uninterrupted invocation leaves: the promoted dataset, recorded with its real hashes. */
  lemma TargetIsPromoted(fp: Fingerprint, origin: Disk, token: Token)
    requires Injective(fp) && ValidOrigin(fp, origin) && NeedsPass(origin)
    ensures var done := Final(Run(fp, origin, token));
            && done.files == Promoted(fp, origin.files)
            && done.state.Some? && done.state.value.status == Complete
            && done.state.value.outputs == Hashes(done.files) && done.state.value.inputs == Hashes(origin.files)
            && done.stages == map[]
  {
    RunCompletes(fp, origin, origin, token);
    JobIsPlanned(fp, origin);
  }

  /** A recorded pass never loses its staging directory: not to a kill, and not to the sweep. */
  lemma StagedPassKeepsItsDirectory(fp: Fingerprint, history: seq<Disk>, tokens: seq<Token>, i: nat)
    requires Injective(fp) && KilledRuns(fp, history, tokens) && i < |history|
    requires history[i].state.Some? && history[i].state.value.status == Staged
    ensures var token := history[i].state.value.stageDir;
            && token.Some? && token.value in history[i].stages
            && token.value in Swept(history[i]).stages
            && Swept(history[i]).stages[token.value] == history[i].stages[token.value]
  {
    KilledRunsAreRecoverable(fp, history, tokens, i);
    JobIsPlanned(fp, history[0]);
    assert JobOf(fp, history[0]).IsPromoting(history[i]);
  }
}
