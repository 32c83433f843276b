/** Guarded, resumable publication of one language export.

    The Hub moves freely: every answer it gives during an invocation is arbitrary.
    An invocation can be killed, or fail, between any two durable steps.  Over all
    histories of invocations of any plans, no upload follows another before the
    first plan was recorded as verified.
 */
module LanguageUpload {
  import opened Wrappers

  const LANGUAGE_CONFIG_NAME := "language-v1"

  datatype Status = Planned | Verified | Ambiguous | Drifted | Unverified

  datatype UploadItem = UploadItem(path: string, size: nat, sha256: string)

  datatype Plan = Plan(repo: string, identity: string, files: seq<UploadItem>)

  datatype RemoteFile = RemoteFile(path: string, size: nat, sha256: string)

  datatype Issue =
    | Missing(path: string)
    | SizeDiffers(path: string)
    | ChecksumDiffers(path: string)
    | NotExposed
    | NotReported(failure: Option<string>)
    | Moved(baseline: string, current: string)

  datatype Outcome = Outcome(
    status: Status, repo: string, identity: string, revision: Option<string>,
    verifiedFiles: seq<string>, issues: seq<Issue>)
  {
    /** The outcome belongs to exactly this plan. */
    predicate For(plan: Plan)
    {
      (identity, repo) == (plan.identity, plan.repo)
    }

    predicate Unresolved()
    {
      status.Ambiguous? || status.Unverified?
    }
  }

  /** What the Hub answers during one invocation: its revision at first, how the upload fails,
      and the revision, files and configurations that the verification finds. */
  datatype Hub = Hub(
    current: string, failure: Option<string>, later: string, remote: seq<RemoteFile>, configs: seq<string>)

  datatype Call = Call(plan: Plan, baseline: string, apply: bool, hub: Hub)

  /** The durable steps, each with the invocation that made it. */
  datatype Event =
    | Recorded(call: Call, outcome: Outcome)
    | Uploaded(call: Call, parent: string)

  /* ------------------------------------------------------------ verification */

  /** Remote files by path; of two with one path the later counts. */
  function ByPath(remote: seq<RemoteFile>): map<string, RemoteFile>
  {
    if remote == [] then map[]
    else
      var last := remote[|remote| - 1];
      ByPath(remote[..|remote| - 1])[last.path := last]
  }

  function FileIssue(item: UploadItem, files: map<string, RemoteFile>): Option<Issue>
  {
    if item.path !in files then Some(Missing(item.path))
    else if files[item.path].size != item.size then Some(SizeDiffers(item.path))
    else if files[item.path].sha256 != item.sha256 then Some(ChecksumDiffers(item.path))
    else None
  }

  function FilesWithoutIssue(planned: seq<UploadItem>, files: map<string, RemoteFile>): seq<string>
  {
    if planned == [] then []
    else
      var last := planned[|planned| - 1];
      FilesWithoutIssue(planned[..|planned| - 1], files) + if FileIssue(last, files).None? then [last.path] else []
  }

  function FileIssues(planned: seq<UploadItem>, files: map<string, RemoteFile>): seq<Issue>
  {
    if planned == [] then []
    else
      var issue := FileIssue(planned[|planned| - 1], files);
      FileIssues(planned[..|planned| - 1], files) + if issue.None? then [] else [issue.value]
  }

  method CompareFiles(planned: seq<UploadItem>, remote: seq<RemoteFile>)
    returns (verified: seq<string>, issues: seq<Issue>)
    ensures verified == FilesWithoutIssue(planned, ByPath(remote))
    ensures issues == FileIssues(planned, ByPath(remote))
  {
    var files: map<string, RemoteFile> := map[];
    for i := 0 to |remote|
      invariant files == ByPath(remote[..i])
    {
      assert remote[..i + 1][..i] == remote[..i];
      files := files[remote[i].path := remote[i]];
    }
    assert remote[..|remote|] == remote;
    verified, issues := [], [];
    for i := 0 to |planned|
      invariant verified == FilesWithoutIssue(planned[..i], files)
      invariant issues == FileIssues(planned[..i], files)
    {
      assert planned[..i + 1][..i] == planned[..i];
      var issue := FileIssue(planned[i], files);
      if issue.None? {
        verified := verified + [planned[i].path];
      } else {
        issues := issues + [issue.value];
      }
    }
    assert planned[..|planned|] == planned;
  }

  /** The last remote file at the item's path is that very file. */
  ghost predicate Confirmed(item: UploadItem, remote: seq<RemoteFile>)
  {
    exists i :: 0 <= i < |remote| && remote[i] == RemoteFile(item.path, item.size, item.sha256)
                && forall j :: i < j < |remote| ==> remote[j].path != item.path
  }

  lemma {:induction false} IssueMeaning(item: UploadItem, remote: seq<RemoteFile>)
    ensures FileIssue(item, ByPath(remote)).None? <==> Confirmed(item, remote)
    ensures item.path in ByPath(remote) ==> ByPath(remote)[item.path].path == item.path
  {
    if remote != [] {
      var n := |remote| - 1;
      var before, last := remote[..n], remote[n];
      IssueMeaning(item, before);
      if last.path != item.path {
        if Confirmed(item, before) {
          var i :| 0 <= i < n && before[i] == RemoteFile(item.path, item.size, item.sha256)
                   && forall j :: i < j < n ==> before[j].path != item.path;
          assert remote[i] == before[i];
        }
        if Confirmed(item, remote) {
          var i :| 0 <= i < |remote| && remote[i] == RemoteFile(item.path, item.size, item.sha256)
                   && forall j :: i < j < |remote| ==> remote[j].path != item.path;
          assert before[i] == remote[i];
        }
      }
    }
  }

  /** The file is the one that counts at its path. */
  ghost predicate LastAt(file: RemoteFile, remote: seq<RemoteFile>)
  {
    exists i :: 0 <= i < |remote| && remote[i] == file && forall j :: i < j < |remote| ==> remote[j].path != file.path
  }

  lemma {:induction false} ByPathMeaning(remote: seq<RemoteFile>, path: string)
    ensures path in ByPath(remote) <==> exists file :: file in remote && file.path == path
    ensures path in ByPath(remote) ==> ByPath(remote)[path].path == path && LastAt(ByPath(remote)[path], remote)
  {
    if remote != [] {
      var n := |remote| - 1;
      var before, last := remote[..n], remote[n];
      ByPathMeaning(before, path);
      assert remote == before + [last];
      if last.path != path && path in ByPath(before) {
        var file := ByPath(before)[path];
        var i :| 0 <= i < n && before[i] == file && forall j :: i < j < n ==> before[j].path != path;
        assert remote[i] == file;
      }
    }
  }

  /** What an issue says of the file at the planned path: there is none, or its size or else its checksum differs. */
  ghost predicate Explains(issue: Issue, item: UploadItem, remote: seq<RemoteFile>)
  {
    match issue
    case Missing(path) => path == item.path && forall file :: file in remote ==> file.path != path
    case SizeDiffers(path) =>
      path == item.path && exists file :: LastAt(file, remote) && file.path == path && file.size != item.size
    case ChecksumDiffers(path) =>
      path == item.path
      && exists file :: LastAt(file, remote) && file.path == path
                        && file.size == item.size && file.sha256 != item.sha256
    case _ => false
  }

  lemma IssueExplains(item: UploadItem, remote: seq<RemoteFile>)
    requires FileIssue(item, ByPath(remote)).Some?
    ensures Explains(FileIssue(item, ByPath(remote)).value, item, remote)
  {
    ByPathMeaning(remote, item.path);
  }

  /** Every planned file is either reported as verified, which it is, or has one issue, which is so. */
  lemma {:induction false} ReportMeaning(planned: seq<UploadItem>, remote: seq<RemoteFile>)
    ensures var verified, issues := FilesWithoutIssue(planned, ByPath(remote)), FileIssues(planned, ByPath(remote));
            && |verified| + |issues| == |planned|
            && (forall path :: path in verified ==>
                  exists item :: item in planned && item.path == path && Confirmed(item, remote))
            && (forall issue :: issue in issues ==> exists item :: item in planned && Explains(issue, item, remote))
  {
    if planned != [] {
      var n := |planned| - 1;
      ReportMeaning(planned[..n], remote);
      IssueMeaning(planned[n], remote);
      assert planned == planned[..n] + [planned[n]];
      if FileIssue(planned[n], ByPath(remote)).Some? {
        IssueExplains(planned[n], remote);
      }
      assert planned[n] in planned && forall item :: item in planned[..n] ==> item in planned;
    }
  }

  /** No file has an issue exactly when every planned file is the last one at its path. */
  lemma {:induction false} NoIssuesMeaning(planned: seq<UploadItem>, remote: seq<RemoteFile>)
    ensures FileIssues(planned, ByPath(remote)) == [] <==> forall item :: item in planned ==> Confirmed(item, remote)
    ensures FileIssues(planned, ByPath(remote)) == [] ==> FilesWithoutIssue(planned, ByPath(remote)) == Paths(planned)
  {
    if planned != [] {
      var n := |planned| - 1;
      NoIssuesMeaning(planned[..n], remote);
      IssueMeaning(planned[n], remote);
      assert planned == planned[..n] + [planned[n]];
      assert Paths(planned) == Paths(planned[..n]) + [planned[n].path];
    }
  }

  function Paths(planned: seq<UploadItem>): seq<string>
  {
    seq(|planned|, i requires 0 <= i < |planned| => planned[i].path)
  }

  /** The Hub holds the whole plan and exposes the configuration. */
  ghost predicate Published(plan: Plan, hub: Hub)
  {
    (forall item :: item in plan.files ==> Confirmed(item, hub.remote)) && LANGUAGE_CONFIG_NAME in hub.configs
  }

  function VerifiedOutcome(plan: Plan, hub: Hub): Outcome
  {
    var files := ByPath(hub.remote);
    var issues := FileIssues(plan.files, files) + if LANGUAGE_CONFIG_NAME in hub.configs then [] else [NotExposed];
    Outcome(if issues == [] then Verified else Unverified, plan.repo, plan.identity, Some(hub.later),
            FilesWithoutIssue(plan.files, files), issues)
  }

  /** Verification succeeds exactly when the Hub holds every planned file and exposes the configuration. */
  lemma VerifiedExactlyWhenPublished(plan: Plan, hub: Hub)
    ensures VerifiedOutcome(plan, hub).status == (if Published(plan, hub) then Verified else Unverified)
    ensures Published(plan, hub) ==> VerifiedOutcome(plan, hub).verifiedFiles == Paths(plan.files)
  {
    NoIssuesMeaning(plan.files, hub.remote);
  }

  /* -------------------------------------------------------------- one invocation */

  datatype Resumption = Fresh | Resumed(outcome: Outcome) | Refused

  /** The recorded outcome for exactly this plan, if there is one. */
  function ResumedOutcome(record: Option<Outcome>, plan: Plan): Resumption
  {
    if record.None? || record.value.status.Planned? || record.value.status.Drifted? then Fresh
    else if !record.value.For(plan) then if record.value.Unresolved() then Refused else Fresh
    else Resumed(record.value)
  }

  function DriftedOutcome(plan: Plan, baseline: string, current: string): Outcome
  {
    Outcome(Drifted, plan.repo, plan.identity, Some(current), [], [Moved(baseline, current)])
  }

  function AmbiguousOutcome(plan: Plan, revision: string, failure: Option<string>): Outcome
  {
    Outcome(Ambiguous, plan.repo, plan.identity, Some(revision), [], [NotReported(failure)])
  }

  /** The durable steps of one invocation that is not interrupted. */
  function CallEvents(record: Option<Outcome>, call: Call): seq<Event>
  {
    var plan, hub := call.plan, call.hub;
    if !call.apply then []
    else
      match ResumedOutcome(record, plan)
      case Refused => []
      case Resumed(_) => [Recorded(call, VerifiedOutcome(plan, hub))]
      case Fresh =>
        if hub.current != call.baseline then [Recorded(call, DriftedOutcome(plan, call.baseline, hub.current))]
        else
          [Recorded(call, AmbiguousOutcome(plan, hub.current, None)), Uploaded(call, hub.current),
           Recorded(call, if hub.failure.Some? then AmbiguousOutcome(plan, hub.current, hub.failure)
                          else VerifiedOutcome(plan, hub))]
  }

  /** The record is that of an earlier publication of this very plan which has been tried. */
  predicate WasTried(record: Option<Outcome>, plan: Plan)
  {
    && record.Some? && record.value.identity == plan.identity && record.value.repo == plan.repo
    && record.value.status in {Ambiguous, Unverified, Verified}
  }

  /** Another plan may be on the Hub or not. */
  predicate OtherIsUnresolved(record: Option<Outcome>, plan: Plan)
  {
    && record.Some? && (record.value.identity != plan.identity || record.value.repo != plan.repo)
    && record.value.status in {Ambiguous, Unverified}
  }

  /** Nothing was tried yet, or what was tried is another plan that was verified. */
  predicate MayUpload(record: Option<Outcome>, plan: Plan)
  {
    || record.None?
    || record.value.status in {Planned, Drifted}
    || ((record.value.identity != plan.identity || record.value.repo != plan.repo) && record.value.status == Verified)
  }

  ghost predicate Uploads(events: seq<Event>)
  {
    exists k :: 0 <= k < |events| && events[k].Uploaded?
  }

  ghost predicate RecordsDrift(events: seq<Event>)
  {
    exists k :: 0 <= k < |events| && events[k].Recorded? && events[k].outcome.status == Drifted
  }

  /** The call says that this plan was found on the Hub, or that it was not. */
  ghost predicate RecordsVerification(event: Event, call: Call)
  {
    && event.Recorded? && event.outcome.repo == call.plan.repo && event.outcome.identity == call.plan.identity
    && event.outcome.revision == Some(call.hub.later)
    && event.outcome.status == if Published(call.plan, call.hub) then Verified else Unverified
  }

  /** What an applied call does, by what is on record: it is refused while another plan is unresolved,
      it uploads when the record allows that and the repository did not move, it records drift when
      only that is amiss, and otherwise it verifies the plan that was tried before. */
  lemma AppliedCallDecides(record: Option<Outcome>, call: Call)
    requires call.apply
    ensures var events, moved := CallEvents(record, call), call.hub.current != call.baseline;
            && (events == [] <==> OtherIsUnresolved(record, call.plan))
            && (Uploads(events) <==> MayUpload(record, call.plan) && !moved)
            && (RecordsDrift(events) <==> MayUpload(record, call.plan) && moved)
            && (WasTried(record, call.plan) <==> |events| == 1 && !RecordsDrift(events))
            && (WasTried(record, call.plan) ==> RecordsVerification(events[0], call))
            && (RecordsDrift(events) ==>
                  && |events| == 1 && events[0].outcome.revision == Some(call.hub.current)
                  && events[0].outcome.issues == [Moved(call.baseline, call.hub.current)])
  {
    var events := CallEvents(record, call);
    VerifiedExactlyWhenPublished(call.plan, call.hub);
    if MayUpload(record, call.plan) {
      if call.hub.current == call.baseline {
        assert events[1].Uploaded?;
      } else {
        assert events[0].outcome.status == Drifted;
      }
    }
  }

  /** An upload is recorded before and after: as ambiguous, and then with its failure or with what was found. */
  lemma UploadIsRecorded(record: Option<Outcome>, call: Call)
    requires call.apply && MayUpload(record, call.plan) && call.hub.current == call.baseline
    ensures var events := CallEvents(record, call);
            && |events| == 3 && events[0].Recorded? && events[1] == Uploaded(call, call.baseline) && events[2].Recorded?
            && UnresolvedFor(Some(events[0].outcome), call.plan)
            && events[0].outcome.revision == Some(call.baseline) && events[0].outcome.verifiedFiles == []
            && (if call.hub.failure.Some?
                then events[2].outcome.status == Ambiguous && events[2].outcome.For(call.plan)
                     && events[2].outcome.revision == Some(call.baseline)
                     && events[2].outcome.issues == [NotReported(call.hub.failure)]
                else RecordsVerification(events[2], call))
  {
    VerifiedExactlyWhenPublished(call.plan, call.hub);
  }

  /** The recorded outcome after some durable steps. */
  function RecordAfter(record: Option<Outcome>, events: seq<Event>): Option<Outcome>
  {
    if events == [] then record
    else
      var last := events[|events| - 1];
      if last.Recorded? then Some(last.outcome) else RecordAfter(record, events[..|events| - 1])
  }

  /** The persisted record of one data root; `log` is every durable step so far. */
  class PublicationState {
    var record: Option<Outcome>
    ghost var log: seq<Event>

    constructor (record: Option<Outcome>)
      ensures this.record == record && log == []
    {
      this.record, log := record, [];
    }

    /** Overwrite the record in one atomic step. */
    method Record(ghost call: Call, outcome: Outcome)
      modifies this
      ensures record == Some(outcome) && log == old(log) + [Recorded(call, outcome)]
    {
      record, log := Some(outcome), log + [Recorded(call, outcome)];
    }

    /** Attempt the upload; any failure leaves its success unknown. */
    method Upload(call: Call, parent: string) returns (failure: Option<string>)
      modifies this`log
      ensures failure == call.hub.failure
      ensures log == old(log) + [Uploaded(call, parent)]
    {
      log := log + [Uploaded(call, parent)];
      failure := call.hub.failure;
    }

    method Verify(call: Call) returns (outcome: Outcome)
      modifies this
      ensures outcome == VerifiedOutcome(call.plan, call.hub)
      ensures record == Some(outcome) && log == old(log) + [Recorded(call, outcome)]
    {
      var plan, hub := call.plan, call.hub;
      var verified, issues := CompareFiles(plan.files, hub.remote);
      if LANGUAGE_CONFIG_NAME !in hub.configs {
        issues := issues + [NotExposed];
      }
      var status := if issues == [] then Verified else Unverified;
      outcome := Outcome(status, plan.repo, plan.identity, Some(hub.later), verified, issues);
      Record(call, outcome);
    }

    method ApplyPublication(call: Call, resumed: bool) returns (outcome: Outcome)
      modifies this
      ensures record == Some(outcome)
      ensures resumed ==> log == old(log) + [Recorded(call, VerifiedOutcome(call.plan, call.hub))]
      ensures !resumed ==>
                log == old(log) + [Recorded(call, AmbiguousOutcome(call.plan, call.hub.current, None)),
                                   Uploaded(call, call.hub.current), Recorded(call, outcome)]
      ensures outcome == if !resumed && call.hub.failure.Some?
                         then AmbiguousOutcome(call.plan, call.hub.current, call.hub.failure)
                         else VerifiedOutcome(call.plan, call.hub)
    {
      var plan, current := call.plan, call.hub.current;
      if !resumed {
        Record(call, AmbiguousOutcome(plan, current, None));
        var failure := Upload(call, current);
        if failure.Some? {
          outcome := AmbiguousOutcome(plan, current, failure);
          Record(call, outcome);
          return;
        }
      }
      outcome := Verify(call);
    }

    /** Publish behind the gate, then verify; `None` is the error that another plan is unresolved. */
    method Publish(call: Call) returns (outcome: Option<Outcome>)
      modifies this
      ensures log == old(log) + CallEvents(old(record), call)
      ensures record == RecordAfter(old(record), CallEvents(old(record), call))
      ensures outcome.None? <==> OtherIsUnresolved(old(record), call.plan)
      ensures outcome.Some? && call.apply ==> record == outcome
      ensures outcome.Some? && !call.apply ==>
                && outcome.value.For(call.plan)
                && (outcome.value.status == Drifted <==>
                      MayUpload(old(record), call.plan) && call.hub.current != call.baseline)
                && (outcome.value.status == Drifted || outcome.value.status == Planned)
    {
      ghost var before := record;
      var resumed := ResumedOutcome(record, call.plan);
      if resumed.Refused? {
        return None;
      }
      if resumed.Fresh? && call.hub.current != call.baseline {
        var drifted := DriftedOutcome(call.plan, call.baseline, call.hub.current);
        if call.apply {
          Record(call, drifted);
        }
        return Some(drifted);
      }
      if !call.apply {
        return Some(Outcome(Planned, call.plan.repo, call.plan.identity, Some(call.hub.current), [], []));
      }
      var applied := ApplyPublication(call, resumed.Resumed?);
      return Some(applied);
    }
  }

  /* ------------------------------------------------------------------- histories */

  /** An invocation that ends, or is killed, after its first `reached` durable steps. */
  datatype Attempt = Attempt(call: Call, reached: nat)

  function Steps(record: Option<Outcome>, attempt: Attempt): seq<Event>
  {
    var events := CallEvents(record, attempt.call);
    if attempt.reached <= |events| then events[..attempt.reached] else events
  }

  /** All durable steps of a history of attempts. */
  function History(record: Option<Outcome>, attempts: seq<Attempt>): seq<Event>
    decreases |attempts|
  {
    if attempts == [] then []
    else
      var steps := Steps(record, attempts[0]);
      steps + History(RecordAfter(record, steps), attempts[1..])
  }

  /** The event records that the plan was found on the Hub. */
  predicate VerifiedFor(event: Event, plan: Plan)
  {
    event.Recorded? && event.outcome.status.Verified? && event.outcome.For(plan)
  }

  /** Some event after `i` and before `j` records that the plan was found on the Hub. */
  ghost predicate VerifiedBetween(events: seq<Event>, i: int, j: nat, plan: Plan)
    requires -1 <= i && j <= |events|
  {
    exists k :: i < k < j && VerifiedFor(events[k], plan)
  }

  lemma VerifiedLater(steps: seq<Event>, later: seq<Event>, i: int, j: nat, plan: Plan)
    requires -1 <= i && j <= |later| && VerifiedBetween(later, i, j, plan)
    ensures VerifiedBetween(steps + later, |steps| + i, |steps| + j, plan)
  {
    var k :| i < k < j && VerifiedFor(later[k], plan);
    assert (steps + later)[|steps| + k] == later[k];
  }

  predicate UnresolvedFor(record: Option<Outcome>, plan: Plan)
  {
    record.Some? && record.value.Unresolved() && record.value.For(plan)
  }

  /** One invocation that finds a plan unresolved either leaves it so or records that it is verified. */
  lemma UnresolvedStep(record: Option<Outcome>, attempt: Attempt, plan: Plan)
    requires UnresolvedFor(record, plan)
    ensures var steps := Steps(record, attempt);
            && (forall k :: 0 <= k < |steps| ==> steps[k].Recorded? && steps[k].outcome.For(plan))
            && (UnresolvedFor(RecordAfter(record, steps), plan) || (|steps| >= 1 && VerifiedFor(steps[0], plan)))
  {
    var steps := Steps(record, attempt);
    assert |steps| <= 1;
  }

  /** While a plan is unresolved nothing is uploaded until that plan is recorded as verified. */
  lemma {:induction false} NoUploadWhileUnresolved(record: Option<Outcome>, attempts: seq<Attempt>, plan: Plan, j: nat)
    requires UnresolvedFor(record, plan)
    requires j < |History(record, attempts)| && History(record, attempts)[j].Uploaded?
    ensures VerifiedBetween(History(record, attempts), -1, j, plan)
    decreases |attempts|
  {
    var steps, events := Steps(record, attempts[0]), History(record, attempts);
    UnresolvedStep(record, attempts[0], plan);
    if |steps| >= 1 && VerifiedFor(steps[0], plan) {
      assert VerifiedFor(events[0], plan);
    } else {
      var after := RecordAfter(record, steps);
      NoUploadWhileUnresolved(after, attempts[1..], plan, j - |steps|);
      VerifiedLater(steps, History(after, attempts[1..]), -1, j - |steps|, plan);
    }
  }

  /** An upload is the second step of its invocation, and leaves the plan unresolved unless it was verified. */
  lemma UploadStep(record: Option<Outcome>, attempt: Attempt, i: nat)
    requires i < |Steps(record, attempt)| && Steps(record, attempt)[i].Uploaded?
    ensures var steps, plan := Steps(record, attempt), attempt.call.plan;
            && i == 1 && steps[1].call == attempt.call
            && (|steps| == 2 || (|steps| == 3 && !steps[2].Uploaded?))
            && (UnresolvedFor(RecordAfter(record, steps), plan) || (|steps| == 3 && VerifiedFor(steps[2], plan)))
  {
    var steps := Steps(record, attempt);
    assert |steps| == 2 ==> RecordAfter(record, steps) == RecordAfter(record, steps[..1]) == Some(steps[0].outcome);
  }

  /** Between two uploads, whatever the plans, kills and Hub, the first plan was recorded as verified. */
  lemma {:induction false} UploadsAreSeparatedByVerification(
    record: Option<Outcome>, attempts: seq<Attempt>, i: nat, j: nat)
    requires i < j < |History(record, attempts)|
    requires History(record, attempts)[i].Uploaded? && History(record, attempts)[j].Uploaded?
    ensures VerifiedBetween(History(record, attempts), i, j, History(record, attempts)[i].call.plan)
    decreases |attempts|
  {
    var steps := Steps(record, attempts[0]);
    var after, n := RecordAfter(record, steps), |steps|;
    if i < n {
      UploadsAfterThisCall(record, attempts, i, j);
    } else {
      UploadsAreSeparatedByVerification(after, attempts[1..], i - n, j - n);
      VerifiedLater(steps, History(after, attempts[1..]), i - n, j - n, History(after, attempts[1..])[i - n].call.plan);
    }
  }

  lemma UploadsAfterThisCall(record: Option<Outcome>, attempts: seq<Attempt>, i: nat, j: nat)
    requires i < j < |History(record, attempts)| && i < |Steps(record, attempts[0])|
    requires History(record, attempts)[i].Uploaded? && History(record, attempts)[j].Uploaded?
    ensures VerifiedBetween(History(record, attempts), i, j, History(record, attempts)[i].call.plan)
  {
    var steps := Steps(record, attempts[0]);
    var after, n, plan := RecordAfter(record, steps), |steps|, attempts[0].call.plan;
    UploadStep(record, attempts[0], i);
    assert History(record, attempts)[i] == steps[i];
    if n == 3 && VerifiedFor(steps[2], plan) {
      assert VerifiedFor(History(record, attempts)[2], plan);
    } else {
      NoUploadWhileUnresolved(after, attempts[1..], plan, j - n);
      VerifiedLater(steps, History(after, attempts[1..]), -1, j - n, plan);
    }
  }

  lemma {:induction false} RecordAfterConcat(record: Option<Outcome>, a: seq<Event>, b: seq<Event>)
    ensures RecordAfter(record, a + b) == RecordAfter(RecordAfter(record, a), b)
    decreases |b|
  {
    if b == [] {
      assert a + b == a;
    } else {
      assert (a + b)[..|a + b| - 1] == a + b[..|b| - 1];
      RecordAfterConcat(record, a, b[..|b| - 1]);
    }
  }

  /** An unresolved record is only ever replaced by an outcome of its own plan. */
  lemma {:induction false} UnresolvedIsKept(record: Option<Outcome>, attempts: seq<Attempt>, plan: Plan, k: nat)
    requires k < |History(record, attempts)| && History(record, attempts)[k].Recorded?
    requires UnresolvedFor(RecordAfter(record, History(record, attempts)[..k]), plan)
    ensures History(record, attempts)[k].outcome.For(plan)
    decreases |attempts|
  {
    var steps, events := Steps(record, attempts[0]), History(record, attempts);
    var after := RecordAfter(record, steps);
    if k < |steps| {
      assert events[..k] == steps[..k];
      UnresolvedInCall(record, attempts[0], plan, k);
    } else {
      assert events[..k] == steps + History(after, attempts[1..])[..k - |steps|];
      RecordAfterConcat(record, steps, History(after, attempts[1..])[..k - |steps|]);
      UnresolvedIsKept(after, attempts[1..], plan, k - |steps|);
    }
  }

  lemma UnresolvedInCall(record: Option<Outcome>, attempt: Attempt, plan: Plan, k: nat)
    requires k < |Steps(record, attempt)| && Steps(record, attempt)[k].Recorded?
    requires UnresolvedFor(RecordAfter(record, Steps(record, attempt)[..k]), plan)
    ensures Steps(record, attempt)[k].outcome.For(plan)
  {
    var steps := Steps(record, attempt);
    if k == 0 {
      assert steps[..0] == [];
    } else {
      assert k == 2;
      assert steps[..2][..1] == [steps[0]];
      assert RecordAfter(record, steps[..2]) == RecordAfter(record, [steps[0]]) == Some(steps[0].outcome);
    }
  }

  /** Every durable step belongs to an applied invocation; an upload has its plan recorded as
      ambiguous right before it, at the revision that is both its parent and the caller's baseline. */
  lemma {:induction false} UploadsAreGuarded(record: Option<Outcome>, attempts: seq<Attempt>, j: nat)
    requires j < |History(record, attempts)|
    ensures var event := History(record, attempts)[j];
            && event.call.apply
            && (event.Uploaded? ==>
                  && event.parent == event.call.baseline == event.call.hub.current
                  && j >= 1
                  && History(record, attempts)[j - 1]
                     == Recorded(event.call, AmbiguousOutcome(event.call.plan, event.parent, None)))
    decreases |attempts|
  {
    var steps := Steps(record, attempts[0]);
    if j >= |steps| {
      UploadsAreGuarded(RecordAfter(record, steps), attempts[1..], j - |steps|);
    }
  }

  /** A dry run neither records nor uploads. */
  lemma DryRunsLeaveNoTrace(record: Option<Outcome>, attempts: seq<Attempt>)
    requires forall attempt :: attempt in attempts ==> !attempt.call.apply
    ensures History(record, attempts) == []
  {
    if attempts != [] {
      DryRunsLeaveNoTrace(record, attempts[1..]);
    }
  }

  /** After a kill at or after the upload, one whole invocation of that plan settles it without
      uploading again: verified exactly when the Hub holds the plan. */
  lemma InterruptedUploadIsSettled(record: Option<Outcome>, attempt: Attempt, next: Call)
    requires |Steps(record, attempt)| >= 2 && next.plan == attempt.call.plan && next.apply
    ensures var steps := Steps(record, attempt);
            CallEvents(RecordAfter(record, steps), next) == [Recorded(next, VerifiedOutcome(next.plan, next.hub))]
    ensures VerifiedFor(CallEvents(RecordAfter(record, Steps(record, attempt)), next)[0], next.plan)
       <==> Published(next.plan, next.hub)
  {
    var steps := Steps(record, attempt);
    assert steps[1].Uploaded?;
    UploadStep(record, attempt, 1);
    if |steps| == 3 {
      assert RecordAfter(record, steps) == Some(steps[2].outcome);
    }
    VerifiedExactlyWhenPublished(next.plan, next.hub);
  }
}
