/** Bounded rotation of the run log, with kills between any two steps.

    Names and files are kept apart: `contents` holds every file ever created, in order
    of creation, and `names` says which file a name leads to.  After a kill between link
    and unlink the staging name and the active name lead to one file.
 */
module LogRotation {
  import opened ByteText

  /** What one write appends: bytes that end in a newline. */
  type Line = line: Bytes | line != [] && line[|line| - 1] == NEWLINE witness [NEWLINE]

  type File = seq<Line>

  /** `Backup(1)` is the newest backup. */
  datatype Name = Active | Backup(slot: nat) | Staging(token: nat)

  datatype Disk = Disk(names: map<Name, nat>, contents: seq<File>)

  datatype Settings = Settings(backups: nat, maxBytes: nat)

  /** The rotation settings; there is at least one backup. */
  type Config = c: Settings | c.backups >= 1 && c.maxBytes >= 1 witness Settings(1, 1)

  /** Where the logger stands: without a handle, with one, with one on a file that is full, or inside a rotation. */
  datatype Phase = Closed | Ready | Full | Linked(token: nat) | Shifting(token: nat, index: nat) | Promoted

  /** `logged` is everything written so far, and `archived` the files that became `Backup(1)`, in order. */
  datatype State = State(disk: Disk, phase: Phase, logged: seq<Line>, archived: seq<nat>)

  datatype Action = Open | Write(line: Line) | Link(token: nat) | Unlink | Shift | Promote | Create | Kill

  const INITIAL := State(Disk(map[], []), Closed, [], [])

  function Size(file: File): nat
  {
    if file == [] then 0 else Size(file[..|file| - 1]) + |file[|file| - 1]|
  }

  /* -------------------------------------------------------- the file system */

  /** Create an empty file under a new name. */
  function CreateFile(disk: Disk, name: Name): Disk
  {
    Disk(disk.names[name := |disk.contents|], disk.contents + [[]])
  }

  function AppendLine(disk: Disk, name: Name, line: Line): Disk
    requires name in disk.names && disk.names[name] < |disk.contents|
  {
    var file := disk.names[name];
    disk.(contents := disk.contents[file := disk.contents[file] + [line]])
  }

  function LinkName(disk: Disk, source: Name, target: Name): Disk
    requires source in disk.names
  {
    disk.(names := disk.names[target := disk.names[source]])
  }

  function UnlinkName(disk: Disk, name: Name): Disk
  {
    disk.(names := disk.names - {name})
  }

  /** Move a name onto another, which may exist. */
  function ReplaceName(disk: Disk, source: Name, target: Name): Disk
    requires source in disk.names
  {
    disk.(names := (disk.names - {source})[target := disk.names[source]])
  }

  /** Every name leads to a file. */
  predicate Linkable(disk: Disk)
  {
    forall name | name in disk.names :: disk.names[name] < |disk.contents|
  }

  /* -------------------------------------------------------------- the steps */

  predicate Enabled(s: State, action: Action)
  {
    match action
    case Open => s.phase.Closed?
    case Write(_) => s.phase.Ready? && Active in s.disk.names && s.disk.names[Active] < |s.disk.contents|
    case Link(token) => s.phase.Full? && Active in s.disk.names && Staging(token) !in s.disk.names
    case Unlink => s.phase.Linked?
    case Shift => s.phase.Shifting? && s.phase.index >= 1
    case Promote => s.phase.Shifting? && s.phase.index == 0 && Staging(s.phase.token) in s.disk.names
    case Create => s.phase.Promoted?
    case Kill => true
  }

  /** One step.  `Kill` also stands for closing the logger and for a step that fails: the handle is
      gone, the disk stays. */
  function Do(c: Config, s: State, action: Action): State
  {
    if !Enabled(s, action) then s
    else
      match action
      case Open =>
        s.(disk := if Active in s.disk.names then s.disk else CreateFile(s.disk, Active), phase := Ready)
      case Write(line) =>
        var disk := AppendLine(s.disk, Active, line);
        s.(disk := disk, logged := s.logged + [line],
           phase := if Size(disk.contents[disk.names[Active]]) >= c.maxBytes then Full else Ready)
      case Link(token) => s.(disk := LinkName(s.disk, Active, Staging(token)), phase := Linked(token))
      case Unlink => s.(disk := UnlinkName(s.disk, Active), phase := Shifting(s.phase.token, c.backups - 1))
      case Shift =>
        var i := s.phase.index;
        s.(disk := if Backup(i) in s.disk.names then ReplaceName(s.disk, Backup(i), Backup(i + 1)) else s.disk,
           phase := Shifting(s.phase.token, i - 1))
      case Promote =>
        var staging := Staging(s.phase.token);
        s.(disk := ReplaceName(s.disk, staging, Backup(1)), phase := Promoted,
           archived := s.archived + [s.disk.names[staging]])
      case Create => s.(disk := CreateFile(s.disk, Active), phase := Ready)
      case Kill => s.(phase := Closed)
  }

  function Run(c: Config, actions: seq<Action>): State
  {
    if actions == [] then INITIAL
    else Do(c, Run(c, actions[..|actions| - 1]), actions[|actions| - 1])
  }

  lemma RunNext(c: Config, actions: seq<Action>, action: Action)
    ensures Run(c, actions + [action]) == Do(c, Run(c, actions), action)
  {
    assert (actions + [action])[..|actions|] == actions;
  }

  /* ---------------------------------------------------------- the invariant */

  /** The newest file, which only the active name and a rotation under way may lead to for writing or promotion. */
  function Newest(s: State): int
  {
    |s.disk.contents| - 1
  }

  predicate FilesInOrder(s: State)
  {
    && Linkable(s.disk)
    && (Active in s.disk.names ==> s.disk.names[Active] == Newest(s))
    && (s.phase.Ready? || s.phase.Full? || s.phase.Linked? ==> Active in s.disk.names)
    && (s.phase.Shifting? || s.phase.Promoted? ==> Active !in s.disk.names)
    && (s.phase.Linked? || s.phase.Shifting? ==>
          Staging(s.phase.token) in s.disk.names && s.disk.names[Staging(s.phase.token)] == Newest(s))
  }

  /** The newest file is not an archive yet. */
  predicate NewestIsOpen(s: State)
  {
    Active in s.disk.names || s.phase.Shifting?
  }

  predicate ArchivesInOrder(s: State)
  {
    && (forall i, j | 0 <= i < j < |s.archived| :: s.archived[i] < s.archived[j])
    && (forall file | file in s.archived :: file < |s.disk.contents| && (NewestIsOpen(s) ==> file < Newest(s)))
  }

  ghost predicate SlotsInOrder(c: Config, s: State)
  {
    && (forall n: nat | Backup(n) in s.disk.names :: 1 <= n <= c.backups && s.disk.names[Backup(n)] in s.archived)
    && (forall n: nat, m: nat | n < m && Backup(n) in s.disk.names && Backup(m) in s.disk.names ::
          s.disk.names[Backup(m)] < s.disk.names[Backup(n)])
    && (s.phase.Shifting? ==>
          s.phase.index < c.backups && (s.phase.index + 1 < c.backups ==> Backup(s.phase.index + 1) !in s.disk.names))
  }

  predicate ArchivesAreFull(c: Config, s: State)
  {
    && (forall file | file in s.archived :: file < |s.disk.contents| && Size(s.disk.contents[file]) >= c.maxBytes)
    && (s.phase.Full? || s.phase.Linked? || s.phase.Shifting? ==>
          Newest(s) >= 0 && Size(s.disk.contents[Newest(s)]) >= c.maxBytes)
  }

  /** All lines of all files, in order of creation. */
  function Lines(files: seq<File>): seq<Line>
  {
    if files == [] then [] else Lines(files[..|files| - 1]) + files[|files| - 1]
  }

  ghost predicate Sound(c: Config, s: State)
  {
    && FilesInOrder(s) && ArchivesInOrder(s) && SlotsInOrder(c, s) && ArchivesAreFull(c, s)
    && Lines(s.disk.contents) == s.logged
  }

  lemma FilesStayInOrder(c: Config, s: State, action: Action)
    requires FilesInOrder(s)
    ensures FilesInOrder(Do(c, s, action))
  {
  }

  lemma ArchivesStayInOrder(c: Config, s: State, action: Action)
    requires FilesInOrder(s) && ArchivesInOrder(s)
    ensures ArchivesInOrder(Do(c, s, action))
  {
    assert forall i | 0 <= i < |s.archived| :: s.archived[i] in s.archived;
  }

  lemma SlotsStayInOrder(c: Config, s: State, action: Action)
    requires FilesInOrder(s) && ArchivesInOrder(s) && SlotsInOrder(c, s)
    ensures SlotsInOrder(c, Do(c, s, action))
  {
    if action.Shift? {
      ShiftKeepsOrder(c, s);
    }
  }

  /** The slot that a shift moves onto is free, or it is the last one. */
  lemma ShiftKeepsOrder(c: Config, s: State)
    requires FilesInOrder(s) && SlotsInOrder(c, s)
    ensures SlotsInOrder(c, Do(c, s, Shift))
  {
  }

  lemma ArchivesStayFull(c: Config, s: State, action: Action)
    requires FilesInOrder(s) && ArchivesInOrder(s) && ArchivesAreFull(c, s)
    ensures ArchivesAreFull(c, Do(c, s, action))
  {
  }

  /** No line is lost, moved or doubled on its way to a file. */
  lemma LinesAreLogged(c: Config, s: State, action: Action)
    requires FilesInOrder(s) && Lines(s.disk.contents) == s.logged
    ensures Lines(Do(c, s, action).disk.contents) == Do(c, s, action).logged
  {
    var before, after := s.disk.contents, Do(c, s, action).disk.contents;
    if |after| == |before| + 1 {
      assert after[..|before|] == before;
    } else if action.Write? && Enabled(s, action) {
      assert after[..Newest(s)] == before[..Newest(s)];
    }
  }

  lemma StaysSound(c: Config, s: State, action: Action)
    requires Sound(c, s)
    ensures Sound(c, Do(c, s, action))
  {
    FilesStayInOrder(c, s, action);
    ArchivesStayInOrder(c, s, action);
    SlotsStayInOrder(c, s, action);
    ArchivesStayFull(c, s, action);
    LinesAreLogged(c, s, action);
  }

  lemma {:induction false} EveryRunIsSound(c: Config, actions: seq<Action>)
    ensures Sound(c, Run(c, actions))
  {
    if actions != [] {
      var n := |actions| - 1;
      EveryRunIsSound(c, actions[..n]);
      StaysSound(c, Run(c, actions[..n]), actions[n]);
    }
  }

  /* ------------------------------------------------------ what every run keeps */

  /** The files in the backup slots from `n` down to 1, so oldest first. */
  function Chain(names: map<Name, nat>, n: nat): seq<nat>
  {
    if n == 0 then []
    else (if Backup(n) in names then [names[Backup(n)]] else []) + Chain(names, n - 1)
  }

  /** The file is in some backup slot. */
  ghost predicate InSlot(disk: Disk, file: nat)
  {
    exists n: nat :: Backup(n) in disk.names && disk.names[Backup(n)] == file
  }

  /** `a` became an archive before `b` did. */
  ghost predicate ArchivedBefore(s: State, a: nat, b: nat)
  {
    exists p, q :: 0 <= p < q < |s.archived| && s.archived[p] == a && s.archived[q] == b
  }

  lemma {:induction false} ChainMembers(names: map<Name, nat>, n: nat, k: nat)
    requires k < |Chain(names, n)|
    ensures exists m: nat :: 1 <= m <= n && Backup(m) in names && names[Backup(m)] == Chain(names, n)[k]
  {
    var first := if Backup(n) in names then [names[Backup(n)]] else [];
    if k >= |first| {
      ChainMembers(names, n - 1, k - |first|);
    }
  }

  lemma {:induction false} ChainIncreases(c: Config, s: State, n: nat, i: nat, j: nat)
    requires SlotsInOrder(c, s) && i < j < |Chain(s.disk.names, n)|
    ensures Chain(s.disk.names, n)[i] < Chain(s.disk.names, n)[j]
  {
    var first := if Backup(n) in s.disk.names then [s.disk.names[Backup(n)]] else [];
    if i >= |first| {
      ChainIncreases(c, s, n - 1, i - |first|, j - |first|);
    } else {
      ChainMembers(s.disk.names, n - 1, j - 1);
    }
  }

  lemma EarlierArchive(s: State, a: nat, b: nat)
    requires ArchivesInOrder(s) && a in s.archived && b in s.archived && a < b
    ensures ArchivedBefore(s, a, b)
  {
    var p :| 0 <= p < |s.archived| && s.archived[p] == a;
    var q :| 0 <= q < |s.archived| && s.archived[q] == b;
    assert p < q;
  }

  /** Read from the highest slot to the lowest, the backups are archives in rotation order. */
  lemma BackupsAreInRotationOrder(c: Config, actions: seq<Action>, i: nat, j: nat)
    requires i < j < |Chain(Run(c, actions).disk.names, c.backups)|
    ensures var chain := Chain(Run(c, actions).disk.names, c.backups);
            ArchivedBefore(Run(c, actions), chain[i], chain[j])
  {
    var s := Run(c, actions);
    EveryRunIsSound(c, actions);
    ChainIncreases(c, s, c.backups, i, j);
    ChainMembers(s.disk.names, c.backups, i);
    ChainMembers(s.disk.names, c.backups, j);
    EarlierArchive(s, Chain(s.disk.names, c.backups)[i], Chain(s.disk.names, c.backups)[j]);
  }

  lemma ArchiveIsSealed(c: Config, s: State, action: Action, file: nat)
    requires Sound(c, s) && file in s.archived
    ensures file in Do(c, s, action).archived && file < |s.disk.contents| <= |Do(c, s, action).disk.contents|
    ensures Do(c, s, action).disk.contents[file] == s.disk.contents[file]
  {
  }

  lemma RunConcat(c: Config, actions: seq<Action>, later: seq<Action>)
    requires later != []
    ensures Run(c, actions + later) == Do(c, Run(c, actions + later[..|later| - 1]), later[|later| - 1])
  {
    var n := |later| - 1;
    SplitLast(actions, later);
    RunNext(c, actions + later[..n], later[n]);
  }

  lemma SplitLast<T>(a: seq<T>, b: seq<T>)
    requires b != []
    ensures a + b == a + b[..|b| - 1] + [b[|b| - 1]]
  {
  }

  /** A file in a backup slot is a full archive that no later step of any run writes to. */
  lemma {:induction false} BackupsAreNeverWrittenAgain(c: Config, actions: seq<Action>, later: seq<Action>, file: nat)
    requires file in Run(c, actions).archived
    ensures file in Run(c, actions + later).archived
    ensures file < |Run(c, actions).disk.contents| && file < |Run(c, actions + later).disk.contents|
    ensures Run(c, actions + later).disk.contents[file] == Run(c, actions).disk.contents[file]
    ensures Size(Run(c, actions).disk.contents[file]) >= c.maxBytes
    decreases |later|
  {
    EveryRunIsSound(c, actions);
    if later == [] {
      assert actions + later == actions;
    } else {
      var before := actions + later[..|later| - 1];
      BackupsAreNeverWrittenAgain(c, actions, later[..|later| - 1], file);
      EveryRunIsSound(c, before);
      RunConcat(c, actions, later);
      ArchiveIsSealed(c, Run(c, before), later[|later| - 1], file);
    }
  }

  /** An archive leaves the backups only when a newer one moves onto the last slot, where it was. */
  lemma BackupsLeaveAtTheEnd(c: Config, actions: seq<Action>, action: Action, file: nat)
    requires InSlot(Run(c, actions).disk, file) && !InSlot(Run(c, actions + [action]).disk, file)
    ensures var before, after := Run(c, actions).disk.names, Run(c, actions + [action]).disk.names;
            && Backup(c.backups) in before && before[Backup(c.backups)] == file
            && Backup(c.backups) in after && file < after[Backup(c.backups)]
  {
    var s := Run(c, actions);
    EveryRunIsSound(c, actions);
    RunNext(c, actions, action);
    var n: nat :| Backup(n) in s.disk.names && s.disk.names[Backup(n)] == file;
    var after := Do(c, s, action).disk;
    assert Backup(n) in after.names ==> after.names[Backup(n)] != file;
  }

  /** Whatever is in a backup slot is an archive, so the lemma above speaks of it. */
  lemma BackupsAreArchives(c: Config, actions: seq<Action>, file: nat)
    requires InSlot(Run(c, actions).disk, file)
    ensures file in Run(c, actions).archived
  {
    EveryRunIsSound(c, actions);
  }

  /* ------------------------------------------------------- runs without a crash */

  /** No kill hits a rotation while the full file has neither its active name nor its backup slot. */
  predicate Calm(c: Config, actions: seq<Action>)
  {
    actions == []
    || var n := |actions| - 1;
       Calm(c, actions[..n]) && (actions[n].Kill? ==> !Run(c, actions[..n]).phase.Shifting?)
  }

  function Slot(s: State, n: nat): int
  {
    if Backup(n) in s.disk.names then s.disk.names[Backup(n)] else -1
  }

  /** The file in slot `n` while `newest` is the active file; -1 when there is none. */
  function Before(c: Config, newest: int, n: nat): int
  {
    if 1 <= n <= c.backups && n <= newest then newest - n else -1
  }

  /** The file due in slot `n`: the newest archives without a gap, moved up by one where a rotation already was. */
  function Due(c: Config, s: State, n: nat): int
  {
    if s.phase.Shifting? then
      if n <= s.phase.index then Before(c, Newest(s), n)
      else if n == s.phase.index + 1 then (if n == c.backups then Before(c, Newest(s), n) else -1)
      else Before(c, Newest(s) + 1, n)
    else if s.phase.Promoted? || (s.phase.Closed? && Active !in s.disk.names) then Before(c, Newest(s) + 1, n)
    else Before(c, Newest(s), n)
  }

  ghost predicate Gapless(c: Config, s: State)
  {
    forall n: nat :: Slot(s, n) == Due(c, s, n)
  }

  lemma StaysGapless(c: Config, s: State, action: Action)
    requires FilesInOrder(s) && SlotsInOrder(c, s) && Gapless(c, s)
    requires action.Kill? ==> !s.phase.Shifting?
    ensures Gapless(c, Do(c, s, action))
  {
    var after := Do(c, s, action);
    forall n: nat
      ensures Slot(after, n) == Due(c, after, n)
    {
      assert Slot(s, n) == Due(c, s, n);
      if action.Shift? && Enabled(s, action) {
        assert Slot(s, s.phase.index) == Due(c, s, s.phase.index);
      }
    }
  }

  lemma {:induction false} CalmRunsAreGapless(c: Config, actions: seq<Action>)
    requires Calm(c, actions)
    ensures Gapless(c, Run(c, actions))
  {
    if actions != [] {
      var n := |actions| - 1;
      CalmRunsAreGapless(c, actions[..n]);
      EveryRunIsSound(c, actions[..n]);
      StaysGapless(c, Run(c, actions[..n]), actions[n]);
    }
  }

  /** The lines of the backups, oldest first, and then of the active file. */
  function Retained(c: Config, s: State): seq<Line>
    requires FilesInOrder(s)
  {
    LinesAt(s.disk, Chain(s.disk.names, c.backups))
    + if Active in s.disk.names then Lines(s.disk.contents[Newest(s)..]) else []
  }

  function LinesAt(disk: Disk, files: seq<nat>): seq<Line>
  {
    if files == [] then []
    else (if files[0] < |disk.contents| then Lines([disk.contents[files[0]]]) else []) + LinesAt(disk, files[1..])
  }

  lemma {:induction false} LinesConcat(a: seq<File>, b: seq<File>)
    ensures Lines(a + b) == Lines(a) + Lines(b)
    decreases |b|
  {
    if b == [] {
      assert a + b == a;
    } else {
      var n := |b| - 1;
      LinesConcat(a, b[..n]);
      assert (a + b)[..|a + b| - 1] == a + b[..n];
      assert (Lines(a) + Lines(b[..n])) + b[n] == Lines(a) + (Lines(b[..n]) + b[n]);
    }
  }

  lemma LinesSplit(files: seq<File>, first: nat, middle: nat, end: nat)
    requires first <= middle <= end <= |files|
    ensures Lines(files[first..end]) == Lines(files[first..middle]) + Lines(files[middle..end])
  {
    assert files[first..end] == files[first..middle] + files[middle..end];
    LinesConcat(files[first..middle], files[middle..end]);
  }

  /** Slots without a gap, read from slot `n` on, hold the lines of the `n` files before `newest`. */
  lemma {:induction false} ChainLines(c: Config, s: State, newest: nat, n: nat)
    requires n <= c.backups && n <= newest <= |s.disk.contents|
    requires forall k: nat :: Slot(s, k) == Before(c, newest, k)
    ensures LinesAt(s.disk, Chain(s.disk.names, n)) == Lines(s.disk.contents[newest - n..newest])
  {
    if n == 0 {
      assert s.disk.contents[newest..newest] == [];
    } else {
      var files, rest := s.disk.contents, Chain(s.disk.names, n - 1);
      ChainLines(c, s, newest, n - 1);
      assert Slot(s, n) == newest - n;
      assert Chain(s.disk.names, n) == [newest - n] + rest;
      LinesAtFirst(s.disk, newest - n, rest);
      LinesSplit(files, newest - n, newest - n + 1, newest);
      assert files[newest - n..newest - n + 1] == [files[newest - n]];
    }
  }

  lemma LinesAtFirst(disk: Disk, file: nat, rest: seq<nat>)
    requires file < |disk.contents|
    ensures LinesAt(disk, [file] + rest) == Lines([disk.contents[file]]) + LinesAt(disk, rest)
  {
    assert ([file] + rest)[1..] == rest;
  }

  /** Slots beyond the number of archives are empty. */
  lemma {:induction false} ChainStops(c: Config, s: State, newest: nat, n: nat)
    requires newest <= n
    requires forall k: nat :: Slot(s, k) == Before(c, newest, k)
    requires Linkable(s.disk)
    ensures Chain(s.disk.names, n) == Chain(s.disk.names, newest)
  {
    if n > newest {
      assert Slot(s, n) == Before(c, newest, n);
      ChainStops(c, s, newest, n - 1);
    }
  }

  /** The first file that a calm run still has in its backups, or the active file itself. */
  function FirstRetained(c: Config, newest: nat): nat
  {
    if c.backups <= newest then newest - c.backups else 0
  }

  lemma GaplessRetains(c: Config, s: State)
    requires FilesInOrder(s) && Active in s.disk.names
    requires forall k: nat :: Slot(s, k) == Before(c, Newest(s), k)
    ensures Retained(c, s) == Lines(s.disk.contents[FirstRetained(c, Newest(s))..])
  {
    var files, newest, first := s.disk.contents, Newest(s), FirstRetained(c, Newest(s));
    ChainHolds(c, s, newest);
    TailSplit(files, first, newest);
  }

  lemma GaplessRetainsArchives(c: Config, s: State)
    requires FilesInOrder(s) && Active !in s.disk.names
    requires forall k: nat :: Slot(s, k) == Before(c, |s.disk.contents|, k)
    ensures Retained(c, s) == Lines(s.disk.contents[FirstRetained(c, |s.disk.contents|)..])
  {
    var files, first := s.disk.contents, FirstRetained(c, |s.disk.contents|);
    ChainHolds(c, s, |files|);
    assert files[first..|files|] == files[first..];
  }

  lemma ChainHolds(c: Config, s: State, newest: nat)
    requires Linkable(s.disk) && newest <= |s.disk.contents|
    requires forall k: nat :: Slot(s, k) == Before(c, newest, k)
    ensures LinesAt(s.disk, Chain(s.disk.names, c.backups)) == Lines(s.disk.contents[FirstRetained(c, newest)..newest])
  {
    if c.backups <= newest {
      ChainLines(c, s, newest, c.backups);
    } else {
      ChainStops(c, s, newest, c.backups);
      ChainLines(c, s, newest, newest);
    }
  }

  lemma TailSplit(files: seq<File>, first: nat, middle: nat)
    requires first <= middle <= |files|
    ensures Lines(files[first..]) == Lines(files[first..middle]) + Lines(files[middle..])
  {
    assert files[first..] == files[first..middle] + files[middle..];
    LinesConcat(files[first..middle], files[middle..]);
  }

  /** The files that will count as older than the next one: all but the active file. */
  function Older(s: State): int
  {
    if Active in s.disk.names then Newest(s) else Newest(s) + 1
  }

  /** Backups oldest first and then the active file are the end of everything logged: exactly the
      active file, when it has its name, and as many archives before it as there are slots.  While
      backups are being shifted the full file is in neither. */
  lemma CalmRunsRetainTheEnd(c: Config, actions: seq<Action>)
    requires Calm(c, actions) && !Run(c, actions).phase.Shifting?
    ensures FilesInOrder(Run(c, actions)) && Older(Run(c, actions)) >= 0
    ensures var s := Run(c, actions);
            var first := FirstRetained(c, Older(s));
            && s.logged == Lines(s.disk.contents[..first]) + Retained(c, s)
            && Retained(c, s) == Lines(s.disk.contents[first..])
  {
    var s := Run(c, actions);
    EveryRunIsSound(c, actions);
    CalmRunsAreGapless(c, actions);
    assert forall k: nat :: Slot(s, k) == Due(c, s, k) == Before(c, Older(s), k);
    if Active in s.disk.names {
      GaplessRetains(c, s);
    } else {
      GaplessRetainsArchives(c, s);
    }
    HeadAndTail(s.disk.contents, FirstRetained(c, Older(s)));
  }

  /* ------------------------------------------------- what the unlucky kill costs */

  /** Every file ever created became an archive, or is the newest one and still on its way. */
  ghost predicate AllArchived(s: State)
  {
    forall file: nat :: file < |s.disk.contents| ==> OnItsWay(s, file)
  }

  predicate OnItsWay(s: State, file: nat)
  {
    file in s.archived || (file == Newest(s) && NewestIsOpen(s))
  }

  /** Once the newest file is promoted, or its rotation killed, only an archive is left as the newest. */
  lemma CalmStepKeepsAllArchived(c: Config, s: State, action: Action)
    requires FilesInOrder(s) && AllArchived(s) && (action.Kill? ==> !s.phase.Shifting?)
    ensures AllArchived(Do(c, s, action))
  {
    forall file: nat | file < |Do(c, s, action).disk.contents|
      ensures OnItsWay(Do(c, s, action), file)
    {
      assert file < |s.disk.contents| ==> OnItsWay(s, file);
    }
  }

  lemma UnluckyKillLosesTheNewest(c: Config, s: State)
    requires FilesInOrder(s) && ArchivesInOrder(s) && s.phase.Shifting? && Newest(s) >= 0
    ensures Lost(Do(c, s, Kill), Newest(s))
  {
  }

  /** The file is no archive and will not become one. */
  predicate Lost(s: State, file: nat)
  {
    file < |s.disk.contents| && !OnItsWay(s, file)
  }

  lemma LostStaysLost(c: Config, s: State, action: Action, file: nat)
    requires FilesInOrder(s) && Lost(s, file)
    ensures Lost(Do(c, s, action), file)
  {
  }

  /** Every file reaches the backups if and only if no kill hits a rotation in the stretch in which
      the full file has neither its active name nor its slot. */
  lemma {:induction false} CalmExactlyWhenAllArchived(c: Config, actions: seq<Action>)
    ensures Calm(c, actions) <==> AllArchived(Run(c, actions))
  {
    if actions != [] {
      var n := |actions| - 1;
      var before, action := Run(c, actions[..n]), actions[n];
      CalmExactlyWhenAllArchived(c, actions[..n]);
      EveryRunIsSound(c, actions[..n]);
      if !Calm(c, actions[..n]) {
        var file: nat :| file < |before.disk.contents| && !OnItsWay(before, file);
        LostStaysLost(c, before, action, file);
      } else if action.Kill? && before.phase.Shifting? {
        UnluckyKillLosesTheNewest(c, before);
      } else {
        CalmStepKeepsAllArchived(c, before, action);
      }
    }
  }

  /** A line that fills a file. */
  function FillingLine(c: Config): (line: Line)
    ensures |line| == c.maxBytes
  {
    seq(c.maxBytes - 1, i => 0) + [NEWLINE]
  }

  lemma SizeOfOne(line: Line)
    ensures Size([line]) == |line|
  {
    var file: File := [line];
    assert file[..0] == [];
  }

  lemma FirstLineFills(c: Config)
    ensures Run(c, [Open, Write(FillingLine(c))]).phase.Full?
    ensures Run(c, [Open, Write(FillingLine(c))]).disk.names == map[Active := 0]
  {
    var line := FillingLine(c);
    RunNext(c, [], Open);
    assert [] + [Open] == [Open];
    assert Run(c, [Open]).disk == Disk(map[Active := 0], [[]]);
    RunNext(c, [Open], Write(line));
    assert [Open] + [Write(line)] == [Open, Write(line)];
    SizeOfOne(line);
  }

  /** With any settings a run can be killed there: one line fills the first file, and its rotation
      gets as far as the unlink. */
  lemma ARotationCanBeKilled(c: Config) returns (actions: seq<Action>)
    ensures Run(c, actions).phase.Shifting?
    ensures !Calm(c, actions + [Kill]) && !AllArchived(Run(c, actions + [Kill]))
  {
    var start := [Open, Write(FillingLine(c))];
    FirstLineFills(c);
    RunNext(c, start, Link(0));
    RunNext(c, start + [Link(0)], Unlink);
    actions := start + [Link(0)] + [Unlink];
    assert (actions + [Kill])[..|actions|] == actions;
    CalmExactlyWhenAllArchived(c, actions + [Kill]);
  }

  /** The file has this staging name, no other but staging names, and no rotation that holds it. */
  ghost predicate Stranded(s: State, file: nat, token: nat)
  {
    && file < |s.disk.contents|
    && Staging(token) in s.disk.names && s.disk.names[Staging(token)] == file
    && (forall name | name in s.disk.names && s.disk.names[name] == file :: name.Staging?)
    && (file == Newest(s) ==> s.phase.Closed?)
  }

  lemma StaysStranded(c: Config, s: State, action: Action, file: nat, token: nat)
    requires FilesInOrder(s) && Stranded(s, file, token)
    ensures Stranded(Do(c, s, action), file, token)
    ensures Do(c, s, action).disk.contents[file] == s.disk.contents[file]
  {
  }

  lemma KillStrands(c: Config, s: State)
    requires Sound(c, s) && s.phase.Shifting?
    ensures Newest(s) >= 0 && Stranded(Do(c, s, Kill), Newest(s), s.phase.token)
  {
  }

  /** A kill in that stretch leaves the full file under its staging name, whatever happens later: it
      has no other name but staging names, so no backup slot, and its lines stay as they were. */
  lemma {:induction false} KilledRotationStrandsTheFile(c: Config, actions: seq<Action>, later: seq<Action>)
    requires Run(c, actions).phase.Shifting?
    ensures var before, after := Run(c, actions), Run(c, actions + [Kill] + later);
            var file, token := Newest(before), before.phase.token;
            && 0 <= file < |before.disk.contents| && file < |after.disk.contents|
            && Stranded(after, file, token) && !InSlot(after.disk, file)
            && after.disk.contents[file] == before.disk.contents[file]
    decreases |later|
  {
    var s := Run(c, actions);
    EveryRunIsSound(c, actions);
    KillStrands(c, s);
    if later == [] {
      RunNext(c, actions, Kill);
      assert actions + [Kill] + later == actions + [Kill];
    } else {
      var n := |later| - 1;
      KilledRotationStrandsTheFile(c, actions, later[..n]);
      RunConcat(c, actions + [Kill], later);
      EveryRunIsSound(c, actions + [Kill] + later[..n]);
      StaysStranded(c, Run(c, actions + [Kill] + later[..n]), later[n], Newest(s), s.phase.token);
    }
  }

  /* ------------------------------------------------------ how many names there are */

  /** The kill hits a rotation while it has a staging name. */
  predicate LeavesStaging(s: State, action: Action)
  {
    action.Kill? && HasStaging(s)
  }

  predicate HasStaging(s: State)
  {
    s.phase.Linked? || s.phase.Shifting?
  }

  /** How many kills of the run did that. */
  function Leftovers(c: Config, actions: seq<Action>): nat
  {
    if actions == [] then 0
    else
      var n := |actions| - 1;
      Leftovers(c, actions[..n]) + if LeavesStaging(Run(c, actions[..n]), actions[n]) then 1 else 0
  }

  /** What one more action adds to a run. */
  lemma OneMore(c: Config, actions: seq<Action>, action: Action)
    ensures Run(c, actions + [action]) == Do(c, Run(c, actions), action)
    ensures Leftovers(c, actions + [action])
         == Leftovers(c, actions) + if LeavesStaging(Run(c, actions), action) then 1 else 0
    ensures Calm(c, actions + [action])
       <==> Calm(c, actions) && (action.Kill? ==> !Run(c, actions).phase.Shifting?)
  {
    assert (actions + [action])[..|actions|] == actions;
  }

  function StagingNames(disk: Disk): set<Name>
  {
    set name | name in disk.names && name.Staging?
  }

  function UnderWay(s: State): nat
  {
    if HasStaging(s) then 1 else 0
  }

  lemma LinkAddsStagingName(c: Config, s: State, token: nat)
    requires Enabled(s, Link(token))
    ensures StagingNames(Do(c, s, Link(token)).disk) == StagingNames(s.disk) + {Staging(token)}
  {
  }

  lemma PromoteRemovesStagingName(c: Config, s: State)
    requires Enabled(s, Promote)
    ensures StagingNames(Do(c, s, Promote).disk) == StagingNames(s.disk) - {Staging(s.phase.token)}
  {
  }

  lemma OthersKeepStagingNames(c: Config, s: State, action: Action)
    requires !Enabled(s, action) || !(action.Link? || action.Promote?)
    ensures StagingNames(Do(c, s, action).disk) == StagingNames(s.disk)
  {
  }

  /** The staging names of rotations that were killed. */
  function Left(s: State): int
  {
    |StagingNames(s.disk)| - UnderWay(s)
  }

  lemma StepCountsStagingNames(c: Config, s: State, action: Action)
    requires FilesInOrder(s)
    ensures Left(Do(c, s, action)) == Left(s) + if LeavesStaging(s, action) then 1 else 0
  {
    if Enabled(s, action) && action.Link? {
      LinkAddsStagingName(c, s, action.token);
    } else if Enabled(s, action) && action.Promote? {
      PromoteRemovesStagingName(c, s);
    } else {
      OthersKeepStagingNames(c, s, action);
    }
  }

  /** There is one staging name for each kill that hit a rotation with one, and one for a rotation under way. */
  lemma {:induction false} StagingNamesAreLeftovers(c: Config, actions: seq<Action>)
    ensures |StagingNames(Run(c, actions).disk)| == Leftovers(c, actions) + UnderWay(Run(c, actions))
  {
    if actions == [] {
      assert StagingNames(INITIAL.disk) == {};
    } else {
      var n := |actions| - 1;
      StagingNamesAreLeftovers(c, actions[..n]);
      EveryRunIsSound(c, actions[..n]);
      StepCountsStagingNames(c, Run(c, actions[..n]), actions[n]);
    }
  }

  /** The names of the first `n` backup slots. */
  function SlotNames(n: nat): set<Name>
  {
    set i | 1 <= i <= n :: Backup(i)
  }

  lemma {:induction false} SlotNamesCount(n: nat)
    ensures |SlotNames(n)| == n
  {
    if n == 0 {
      assert SlotNames(n) == {};
    } else {
      SlotNamesCount(n - 1);
      assert SlotNames(n) == SlotNames(n - 1) + {Backup(n)};
    }
  }

  /** Slots `low` to `high` are taken. */
  predicate Filled(disk: Disk, low: nat, high: nat)
  {
    forall i: nat | low <= i <= high :: Backup(i) in disk.names
  }

  /** The names that the settings provide for, and the staging names there are. */
  function Provided(c: Config, disk: Disk): set<Name>
  {
    SlotNames(c.backups) + StagingNames(disk) + {Active}
  }

  lemma ProvidedCount(c: Config, disk: Disk)
    ensures |Provided(c, disk)| == c.backups + |StagingNames(disk)| + 1
  {
    SlotNamesCount(c.backups);
    assert |SlotNames(c.backups) + StagingNames(disk)| == c.backups + |StagingNames(disk)|;
  }

  lemma NamesAreProvided(c: Config, s: State)
    requires SlotsInOrder(c, s)
    ensures s.disk.names.Keys <= Provided(c, s.disk)
    ensures Active in s.disk.names && Filled(s.disk, 1, c.backups) ==> s.disk.names.Keys == Provided(c, s.disk)
  {
  }

  /** The directory never has more names than the active file, the backups, one rotation under way,
      and one for each kill that left a staging name. */
  lemma DirectoryIsBounded(c: Config, actions: seq<Action>)
    ensures |Run(c, actions).disk.names| <= c.backups + 2 + Leftovers(c, actions)
  {
    EveryRunIsSound(c, actions);
    StagingNamesAreLeftovers(c, actions);
    var s := Run(c, actions);
    NamesAreProvided(c, s);
    ProvidedCount(c, s.disk);
    var provided := Provided(c, s.disk);
    assert provided == s.disk.names.Keys + (provided - s.disk.names.Keys);
  }

  /** `later` goes on from `actions` without leaving another staging name. */
  predicate LeavesNoMore(c: Config, actions: seq<Action>, later: seq<Action>)
  {
    Leftovers(c, actions + later) == Leftovers(c, actions)
  }

  /** From some token on, all staging names are free. */
  lemma {:induction false} FreshToken(names: set<Name>) returns (token: nat)
    ensures forall later: nat | later >= token :: Staging(later) !in names
  {
    if names == {} {
      token := 0;
    } else {
      var name :| name in names;
      token := FreshToken(names - {name});
      if name.Staging? && name.token >= token {
        token := name.token + 1;
      }
    }
  }

  /** A rotation under way that started with the first `n` slots taken: those above the free one have moved up. */
  predicate MovesUp(s: State, n: nat)
  {
    match s.phase
    case Shifting(_, i) => Filled(s.disk, 1, if i < n then i else n) && Filled(s.disk, i + 2, n + 1)
    case Promoted => Filled(s.disk, 1, n + 1)
    case _ => Filled(s.disk, 1, n)
  }

  /** The next step of a rotation that nothing disturbs. */
  predicate GoesOn(s: State, action: Action)
  {
    match s.phase
    case Full => action.Link? && Enabled(s, action)
    case Linked(_) => action.Unlink?
    case Shifting(_, i) => if i == 0 then action.Promote? else action.Shift?
    case _ => false
  }

  /** The steps that are left until the promotion. */
  function StepsLeft(c: Config, phase: Phase): nat
  {
    match phase
    case Full => c.backups + 3
    case Linked(_) => c.backups + 2
    case Shifting(_, i) => i + 1
    case _ => 0
  }

  lemma NextStep(s: State) returns (action: Action)
    requires FilesInOrder(s) && (s.phase.Full? || HasStaging(s))
    ensures GoesOn(s, action)
  {
    var token := FreshToken(s.disk.names.Keys);
    action :=
      if s.phase.Full? then Link(token)
      else if s.phase.Linked? then Unlink
      else if s.phase.index == 0 then Promote else Shift;
  }

  lemma GoingOnMovesUp(c: Config, s: State, action: Action, n: nat)
    requires FilesInOrder(s) && SlotsInOrder(c, s) && MovesUp(s, n) && n < c.backups && GoesOn(s, action)
    ensures var after := Do(c, s, action);
            MovesUp(after, n) && (HasStaging(after) || after.phase.Promoted?)
            && StepsLeft(c, after.phase) < StepsLeft(c, s.phase)
  {
  }

  lemma Regroup<T>(a: seq<T>, b: seq<T>, c: seq<T>)
    ensures a + (b + c) == a + b + c
  {
  }

  /** An undisturbed rotation comes to its end and takes one more slot, if there is one. */
  lemma {:induction false} FinishRotation(c: Config, actions: seq<Action>, n: nat) returns (later: seq<Action>)
    requires var s := Run(c, actions); s.phase.Full? || HasStaging(s) || s.phase.Promoted?
    requires MovesUp(Run(c, actions), n) && n < c.backups
    ensures LeavesNoMore(c, actions, later)
    ensures Run(c, actions + later).phase.Ready? && Filled(Run(c, actions + later).disk, 1, n + 1)
    decreases StepsLeft(c, Run(c, actions).phase)
  {
    var s := Run(c, actions);
    EveryRunIsSound(c, actions);
    if s.phase.Promoted? {
      later := [Create];
      OneMore(c, actions, Create);
    } else {
      var action := NextStep(s);
      GoingOnMovesUp(c, s, action, n);
      OneMore(c, actions, action);
      var rest := FinishRotation(c, actions + [action], n);
      later := [action] + rest;
      Regroup(actions, [action], rest);
    }
  }

  lemma ALineFillsTheFile(c: Config, s: State)
    requires FilesInOrder(s) && s.phase.Ready?
    ensures var after := Do(c, s, Write(FillingLine(c)));
            after.phase.Full? && after.disk.names == s.disk.names
  {
    var file := s.disk.contents[s.disk.names[Active]];
    assert (file + [FillingLine(c)])[..|file|] == file;
  }

  lemma OneLineFills(c: Config, actions: seq<Action>)
    requires Run(c, actions).phase.Ready?
    ensures var full := actions + [Write(FillingLine(c))];
            && Run(c, full).phase.Full? && Run(c, full).disk.names == Run(c, actions).disk.names
            && Leftovers(c, full) == Leftovers(c, actions) && (Calm(c, full) <==> Calm(c, actions))
  {
    EveryRunIsSound(c, actions);
    ALineFillsTheFile(c, Run(c, actions));
    OneMore(c, actions, Write(FillingLine(c)));
  }

  lemma AFullFileIsLinked(c: Config, actions: seq<Action>) returns (token: nat)
    requires Run(c, actions).phase.Full?
    ensures var linked := actions + [Link(token)];
            && Run(c, linked).phase.Linked? && Run(c, actions).disk.names.Keys <= Run(c, linked).disk.names.Keys
            && Leftovers(c, linked) == Leftovers(c, actions) && (Calm(c, linked) <==> Calm(c, actions))
  {
    EveryRunIsSound(c, actions);
    token := FreshToken(Run(c, actions).disk.names.Keys);
    OneMore(c, actions, Link(token));
  }

  /** One more line makes a rotation, and that takes one more slot. */
  lemma FillOne(c: Config, actions: seq<Action>, n: nat) returns (later: seq<Action>)
    requires Run(c, actions).phase.Ready? && Filled(Run(c, actions).disk, 1, n) && n < c.backups
    ensures LeavesNoMore(c, actions, later)
    ensures Run(c, actions + later).phase.Ready? && Filled(Run(c, actions + later).disk, 1, n + 1)
  {
    var write := Write(FillingLine(c));
    OneLineFills(c, actions);
    var rotation := FinishRotation(c, actions + [write], n);
    later := [write] + rotation;
    Regroup(actions, [write], rotation);
  }

  lemma {:induction false} FillSlots(c: Config, actions: seq<Action>, n: nat) returns (later: seq<Action>)
    requires Run(c, actions).phase.Ready? && Filled(Run(c, actions).disk, 1, n) && n <= c.backups
    ensures LeavesNoMore(c, actions, later)
    ensures Run(c, actions + later).phase.Ready? && Filled(Run(c, actions + later).disk, 1, c.backups)
    decreases c.backups - n
  {
    if n == c.backups {
      later := [];
      assert actions + later == actions;
    } else {
      var one := FillOne(c, actions, n);
      var rest := FillSlots(c, actions + one, n + 1);
      later := one + rest;
      Regroup(actions, one, rest);
    }
  }

  lemma GetReady(c: Config, actions: seq<Action>) returns (later: seq<Action>)
    ensures LeavesNoMore(c, actions, later) && Run(c, actions + later).phase.Ready?
  {
    if HasStaging(Run(c, actions)) {
      later := FinishRotation(c, actions, 0);
    } else {
      later := [Kill, Open];
      OneMore(c, actions, Kill);
      OneMore(c, actions + [Kill], Open);
      assert actions + later == actions + [Kill] + [Open];
    }
  }

  /** From every state the bound is reached without another such kill. */
  lemma TheBoundIsReached(c: Config, actions: seq<Action>) returns (later: seq<Action>)
    ensures LeavesNoMore(c, actions, later)
    ensures |Run(c, actions + later).disk.names| == c.backups + 2 + Leftovers(c, actions)
  {
    var ready := GetReady(c, actions);
    var fill := FillSlots(c, actions + ready, 0);
    var last := LastRotation(c, actions + ready + fill);
    later := ready + fill + last;
    Regroup(actions, ready, fill);
    Regroup(actions, ready + fill, last);
  }

  lemma LastRotation(c: Config, actions: seq<Action>) returns (later: seq<Action>)
    requires Run(c, actions).phase.Ready? && Filled(Run(c, actions).disk, 1, c.backups)
    ensures LeavesNoMore(c, actions, later)
    ensures |Run(c, actions + later).disk.names| == c.backups + 2 + Leftovers(c, actions)
  {
    var write := Write(FillingLine(c));
    OneLineFills(c, actions);
    var token := AFullFileIsLinked(c, actions + [write]);
    AFullDirectory(c, actions + [write] + [Link(token)]);
    later := [write] + [Link(token)];
    Regroup(actions, [write], [Link(token)]);
  }

  lemma AFullDirectory(c: Config, actions: seq<Action>)
    requires Run(c, actions).phase.Linked? && Filled(Run(c, actions).disk, 1, c.backups)
    ensures |Run(c, actions).disk.names| == c.backups + 2 + Leftovers(c, actions)
  {
    EveryRunIsSound(c, actions);
    StagingNamesAreLeftovers(c, actions);
    NamesAreProvided(c, Run(c, actions));
    ProvidedCount(c, Run(c, actions).disk);
  }

  /** As long as no further kill hits a rotation with a staging name, the directory stays within the
      active file, the backups and one rotation under way if and only if none has so far. */
  lemma BoundedExactlyWithoutLeftovers(c: Config, actions: seq<Action>)
    ensures (forall later | LeavesNoMore(c, actions, later) ::
               |Run(c, actions + later).disk.names| <= c.backups + 2)
       <==> Leftovers(c, actions) == 0
  {
    if Leftovers(c, actions) == 0 {
      forall later | LeavesNoMore(c, actions, later)
        ensures |Run(c, actions + later).disk.names| <= c.backups + 2
      {
        DirectoryIsBounded(c, actions + later);
      }
    } else {
      var later := TheBoundIsReached(c, actions);
    }
  }

  lemma AnotherNameIsLeft(c: Config, before: seq<Action>) returns (actions: seq<Action>)
    requires Calm(c, before) && Run(c, before).phase.Closed?
    ensures Calm(c, actions) && Run(c, actions).phase.Closed? && Leftovers(c, actions) == Leftovers(c, before) + 1
  {
    OneMore(c, before, Open);
    OneLineFills(c, before + [Open]);
    var full := before + [Open] + [Write(FillingLine(c))];
    var token := AFullFileIsLinked(c, full);
    OneMore(c, full + [Link(token)], Kill);
    actions := full + [Link(token)] + [Kill];
  }

  /** A kill between link and unlink loses no file but leaves a name, and as often as one likes. */
  lemma {:induction false} CalmRunsLeaveNames(c: Config, n: nat) returns (actions: seq<Action>)
    ensures Calm(c, actions) && AllArchived(Run(c, actions)) && Run(c, actions).phase.Closed?
    ensures Leftovers(c, actions) == |StagingNames(Run(c, actions).disk)| == n
  {
    if n == 0 {
      actions := [];
    } else {
      var before := CalmRunsLeaveNames(c, n - 1);
      actions := AnotherNameIsLeft(c, before);
    }
    CalmExactlyWhenAllArchived(c, actions);
    StagingNamesAreLeftovers(c, actions);
  }

  /** One such run: its first rotation is killed after the link. */
  lemma AKilledLinkLeavesAName(c: Config)
    ensures var actions := [Open, Write(FillingLine(c)), Link(0), Kill];
            && Calm(c, actions) && AllArchived(Run(c, actions)) && Run(c, actions).phase.Closed?
            && Staging(0) in Run(c, actions).disk.names && Leftovers(c, actions) == 1
  {
    var start, actions := [Open, Write(FillingLine(c))], [Open, Write(FillingLine(c)), Link(0), Kill];
    FirstLineFills(c);
    OneMore(c, [], Open);
    OneMore(c, [Open], Write(FillingLine(c)));
    assert [] + [Open] == [Open] && [Open] + [Write(FillingLine(c))] == start;
    OneMore(c, start, Link(0));
    OneMore(c, start + [Link(0)], Kill);
    assert start + [Link(0)] + [Kill] == actions;
    CalmExactlyWhenAllArchived(c, actions);
  }

  /* ------------------------------------------------------- how long the files are */

  /** All bytes of the file. */
  function BytesOf(file: File): Bytes
  {
    if file == [] then [] else BytesOf(file[..|file| - 1]) + file[|file| - 1]
  }

  lemma {:induction false} SizeIsNumberOfBytes(file: File)
    ensures Size(file) == |BytesOf(file)|
  {
    if file != [] {
      SizeIsNumberOfBytes(file[..|file| - 1]);
    }
  }

  /** The file had reached the limit before its last line was written. */
  predicate Oversized(c: Config, file: File)
  {
    file != [] && |BytesOf(file[..|file| - 1])| >= c.maxBytes
  }

  ghost predicate WithinLimit(c: Config, s: State)
  {
    forall file | file in s.disk.contents :: !Oversized(c, file)
  }

  /** The kill leaves a file that has reached the limit under its active name. */
  predicate LeavesFull(s: State, action: Action)
  {
    action.Kill? && (s.phase.Full? || s.phase.Linked?)
  }

  predicate NoneLeftFull(c: Config, actions: seq<Action>)
  {
    actions == []
    || var n := |actions| - 1;
       NoneLeftFull(c, actions[..n]) && !LeavesFull(Run(c, actions[..n]), actions[n])
  }

  predicate ActiveIsFull(c: Config, s: State)
  {
    Active in s.disk.names && Newest(s) >= 0 && Size(s.disk.contents[Newest(s)]) >= c.maxBytes
  }

  /** Nothing is too long, and the next line goes to a file with room. */
  ghost predicate HasRoom(c: Config, s: State)
  {
    WithinLimit(c, s) && (s.phase.Ready? || s.phase.Closed? ==> !ActiveIsFull(c, s))
  }

  /** Something is too long, or the next line makes it so. */
  ghost predicate OutOfRoom(c: Config, s: State)
  {
    !WithinLimit(c, s) || ((s.phase.Ready? || s.phase.Closed?) && ActiveIsFull(c, s))
  }

  lemma AppendedFile(file: File, line: Line)
    ensures (file + [line])[..|file + [line]| - 1] == file
  {
  }

  lemma WriteKeepsRoom(c: Config, s: State, line: Line)
    requires FilesInOrder(s) && HasRoom(c, s) && Enabled(s, Write(line))
    ensures HasRoom(c, Do(c, s, Write(line)))
  {
    var file := s.disk.contents[Newest(s)];
    AppendedFile(file, line);
    SizeIsNumberOfBytes(file);
    var after := Do(c, s, Write(line));
    forall other | other in after.disk.contents
      ensures !Oversized(c, other)
    {
      assert other == file + [line] || other in s.disk.contents;
    }
  }

  lemma StepKeepsRoom(c: Config, s: State, action: Action)
    requires FilesInOrder(s) && HasRoom(c, s) && !LeavesFull(s, action)
    ensures HasRoom(c, Do(c, s, action))
  {
    if action.Write? && Enabled(s, action) {
      WriteKeepsRoom(c, s, action.line);
    }
  }

  lemma WriteStaysOutOfRoom(c: Config, s: State, line: Line)
    requires FilesInOrder(s) && OutOfRoom(c, s) && Enabled(s, Write(line))
    ensures !WithinLimit(c, Do(c, s, Write(line)))
  {
    var newest := Newest(s);
    var file, after := s.disk.contents[newest], Do(c, s, Write(line)).disk.contents;
    AppendedFile(file, line);
    assert after[newest] == file + [line] && after[newest] in after;
    if WithinLimit(c, s) {
      SizeIsNumberOfBytes(file);
    } else {
      var long :| long in s.disk.contents && Oversized(c, long);
      var k :| 0 <= k < |s.disk.contents| && s.disk.contents[k] == long;
      if k == newest {
        assert BytesOf(file) == BytesOf(file[..|file| - 1]) + file[|file| - 1];
      } else {
        assert after[k] == long;
      }
    }
  }

  lemma StepStaysOutOfRoom(c: Config, s: State, action: Action)
    requires FilesInOrder(s) && OutOfRoom(c, s)
    ensures OutOfRoom(c, Do(c, s, action))
  {
    if action.Write? && Enabled(s, action) {
      WriteStaysOutOfRoom(c, s, action.line);
    } else if !WithinLimit(c, s) {
      var long :| long in s.disk.contents && Oversized(c, long);
      assert long in Do(c, s, action).disk.contents;
    }
  }

  lemma {:induction false} RoomExactlyWhenNoneLeftFull(c: Config, actions: seq<Action>)
    ensures NoneLeftFull(c, actions) ==> HasRoom(c, Run(c, actions))
    ensures !NoneLeftFull(c, actions) ==> OutOfRoom(c, Run(c, actions))
  {
    if actions != [] {
      var n := |actions| - 1;
      RoomExactlyWhenNoneLeftFull(c, actions[..n]);
      EveryRunIsSound(c, actions[..n]);
      if !NoneLeftFull(c, actions[..n]) {
        StepStaysOutOfRoom(c, Run(c, actions[..n]), actions[n]);
      } else if !LeavesFull(Run(c, actions[..n]), actions[n]) {
        StepKeepsRoom(c, Run(c, actions[..n]), actions[n]);
      }
    }
  }

  /** Every file, also after one more line, had room before its last line if and only if no kill left
      a full file under its active name: reopening the log does not rotate it. */
  lemma WithinLimitExactlyWhenNoneLeftFull(c: Config, actions: seq<Action>, line: Line)
    ensures NoneLeftFull(c, actions) ==> WithinLimit(c, Run(c, actions))
    ensures NoneLeftFull(c, actions) <==> WithinLimit(c, Run(c, actions + [Open] + [Write(line)]))
  {
    RoomExactlyWhenNoneLeftFull(c, actions);
    RunNext(c, actions, Open);
    RunNext(c, actions + [Open], Write(line));
    var s, ready := Run(c, actions), Run(c, actions + [Open]);
    EveryRunIsSound(c, actions);
    EveryRunIsSound(c, actions + [Open]);
    if NoneLeftFull(c, actions) {
      StepKeepsRoom(c, s, Open);
      StepKeepsRoom(c, ready, Write(line));
    } else {
      StepStaysOutOfRoom(c, s, Open);
      if Enabled(ready, Write(line)) {
        WriteStaysOutOfRoom(c, ready, line);
      }
    }
  }

  /** With or without kills, every file holds one whole stretch of the log, and the stretches follow
      each other in order of creation. */
  lemma FilesAreStretchesOfTheLog(c: Config, actions: seq<Action>, file: nat)
    requires file < |Run(c, actions).disk.contents|
    ensures var files := Run(c, actions).disk.contents;
            Run(c, actions).logged == Lines(files[..file]) + (files[file] + Lines(files[file + 1..]))
  {
    EveryRunIsSound(c, actions);
    OneFileOfMany(Run(c, actions).disk.contents, file);
  }

  lemma OneFileOfMany(files: seq<File>, file: nat)
    requires file < |files|
    ensures Lines(files) == Lines(files[..file]) + (files[file] + Lines(files[file + 1..]))
  {
    HeadAndTail(files, file);
    FirstAndRest(files[file..]);
    assert files[file..][1..] == files[file + 1..];
  }

  lemma HeadAndTail(files: seq<File>, middle: nat)
    requires middle <= |files|
    ensures Lines(files) == Lines(files[..middle]) + Lines(files[middle..])
  {
    CutAt(files, middle);
    LinesConcat(files[..middle], files[middle..]);
  }

  lemma CutAt(files: seq<File>, middle: nat)
    requires middle <= |files|
    ensures files == files[..middle] + files[middle..]
  {
  }

  lemma FirstAndRest(files: seq<File>)
    requires files != []
    ensures Lines(files) == files[0] + Lines(files[1..])
  {
    assert files == [files[0]] + files[1..];
    LinesConcat([files[0]], files[1..]);
    LinesOfOne(files[0]);
  }

  lemma LinesOfOne(file: File)
    ensures Lines([file]) == file
  {
    var files: seq<File> := [file];
    assert files[..0] == [];
  }
}
