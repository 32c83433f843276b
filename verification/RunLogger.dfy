/** The run log's writer: buffering before approval, terminated lines, and rotation in place.

    Every method takes the disk through steps of `LogRotation`, in the order in which the
    source makes them, so what holds of every run holds at every point of every method.
 */
module RunLogging {
  import opened ByteText
  import opened LogRotation

  predicate EndsInNewline(raw: Bytes)
  {
    raw != [] && raw[|raw| - 1] == NEWLINE
  }

  /** The bytes of the event, with a newline at their end. */
  function Terminated(raw: Bytes): (line: Line)
    ensures raw <= line && EndsInNewline(line)
    ensures |line| == if EndsInNewline(raw) then |raw| else |raw| + 1
  {
    if EndsInNewline(raw) then raw else raw + [NEWLINE]
  }

  function TerminatedAll(raws: seq<Bytes>): (lines: seq<Line>)
    ensures |lines| == |raws|
    ensures forall i :: 0 <= i < |raws| ==> lines[i] == Terminated(raws[i])
  {
    seq(|raws|, i requires 0 <= i < |raws| => Terminated(raws[i]))
  }

  lemma TerminatedNext(before: seq<Line>, raws: seq<Bytes>, i: nat)
    requires i < |raws|
    ensures before + TerminatedAll(raws[..i]) + [Terminated(raws[i])] == before + TerminatedAll(raws[..i + 1])
  {
    assert TerminatedAll(raws[..i + 1]) == TerminatedAll(raws[..i]) + [Terminated(raws[i])];
  }

  /** The later actions go on from the earlier ones without a kill. */
  ghost predicate Extends(before: seq<Action>, after: seq<Action>)
  {
    before <= after && forall k :: |before| <= k < |after| ==> !after[k].Kill?
  }

  lemma {:induction false} ExtendsCalmly(c: Config, before: seq<Action>, after: seq<Action>)
    requires Calm(c, before) && Extends(before, after)
    ensures Calm(c, after)
    decreases |after|
  {
    if |before| < |after| {
      ExtendsCalmly(c, before, after[..|after| - 1]);
    } else {
      assert before == after;
    }
  }

  lemma StaysCalm(c: Config, before: seq<Action>, after: seq<Action>)
    requires Extends(before, after)
    ensures Calm(c, before) ==> Calm(c, after)
  {
    if Calm(c, before) {
      ExtendsCalmly(c, before, after);
    }
  }

  class RunLogger {
    const c: Config
    var disk: Disk
    var handle: bool
    var bufferPreflight: bool
    var buffered: seq<Bytes>
    ghost var actions: seq<Action>
    ghost var state: State

    /** The actions lead to the state, and the state to this disk. */
    ghost predicate Reached()
      reads this
    {
      Run(c, actions) == state && state.disk == disk
    }

    ghost predicate Valid()
      reads this
    {
      Reached() && state.phase == if handle then Ready else Closed
    }

    /** Take note of a step that the disk has just gone through. */
    ghost method Note(action: Action)
      requires Run(c, actions) == state && Do(c, state, action).disk == disk
      modifies this`actions, this`state
      ensures Reached() && state == Do(c, old(state), action)
      ensures actions == old(actions) + [action]
      ensures forall start :: Extends(start, old(actions)) && !action.Kill? ==> Extends(start, actions)
    {
      RunNext(c, actions, action);
      actions, state := actions + [action], Do(c, state, action);
    }

    /** A new process on the disk that earlier ones left, whether or not they were killed. */
    constructor (c: Config, disk: Disk, bufferPreflight: bool, ghost history: seq<Action>)
      requires Run(c, history).disk == disk
      ensures Valid() && this.c == c && buffered == [] && this.bufferPreflight == bufferPreflight
      ensures handle == !bufferPreflight
      ensures actions == history + [Kill] + if bufferPreflight then [] else [Open]
      ensures state.logged == Run(c, history).logged
    {
      this.c, this.disk, this.handle := c, disk, false;
      this.bufferPreflight, this.buffered := bufferPreflight, [];
      this.actions, this.state := history, Run(c, history);
      new;
      Note(Kill);
      if !bufferPreflight {
        OpenPersistent();
      }
    }

    /** Open the active file, creating it when a rotation did not get that far. */
    method OpenPersistent()
      requires Valid()
      modifies this`disk, this`handle, this`actions, this`state
      ensures Valid() && handle
      ensures state == if old(handle) then old(state) else Do(c, old(state), Open)
      ensures actions == if old(handle) then old(actions) else old(actions) + [Open]
      ensures forall start :: Extends(start, old(actions)) ==> Extends(start, actions)
    {
      if handle {
        return;
      }
      if Active !in disk.names {
        disk := CreateFile(disk, Active);
      }
      Note(Open);
      handle := true;
    }

    /** Move the backups up by one slot, highest first. */
    method ShiftBackups()
      requires Reached() && state.phase.Shifting? && state.phase.index == c.backups - 1
      modifies this`disk, this`actions, this`state
      ensures Reached() && state.phase == Shifting(old(state).phase.token, 0)
      ensures state.logged == old(state).logged && state.archived == old(state).archived
      ensures disk.contents == old(disk.contents)
      ensures forall start :: Extends(start, old(actions)) ==> Extends(start, actions)
    {
      var index := c.backups - 1;
      while index > 0
        invariant 0 <= index < c.backups && state.phase == Shifting(old(state).phase.token, index)
        invariant Reached() && state.logged == old(state).logged && state.archived == old(state).archived
        invariant disk.contents == old(disk.contents)
        invariant forall start :: Extends(start, old(actions)) ==> Extends(start, actions)
      {
        if Backup(index) in disk.names {
          disk := ReplaceName(disk, Backup(index), Backup(index + 1));
        }
        Note(Shift);
        index := index - 1;
      }
    }

    /** Link the full file to a staging name and take its active name away. */
    method Detach() returns (token: nat)
      requires Reached() && state.phase.Full?
      modifies this`disk, this`actions, this`state
      ensures Reached() && state.phase == Shifting(token, c.backups - 1)
      ensures state.logged == old(state).logged && state.archived == old(state).archived
      ensures disk.contents == old(disk.contents)
      ensures forall start :: Extends(start, old(actions)) ==> Extends(start, actions)
    {
      EveryRunIsSound(c, actions);
      token := FreshStaging();
      disk := LinkName(disk, Active, Staging(token));
      Note(Link(token));
      disk := UnlinkName(disk, Active);
      Note(Unlink);
    }

    /** Move the staged file to the first backup slot. */
    method PromoteStaging(token: nat)
      requires Reached() && state.phase == Shifting(token, 0)
      modifies this`disk, this`actions, this`state
      ensures Reached() && state.phase.Promoted? && state.logged == old(state).logged
      ensures state.archived == old(state).archived + [Newest(old(state))]
      ensures disk.contents == old(disk.contents)
      ensures forall start :: Extends(start, old(actions)) ==> Extends(start, actions)
    {
      EveryRunIsSound(c, actions);
      disk := ReplaceName(disk, Staging(token), Backup(1));
      Note(Promote);
    }

    /** Move the full file to the first backup slot and start an empty one. */
    method RotateLocked()
      requires Reached() && state.phase.Full? && handle
      modifies this`disk, this`handle, this`actions, this`state
      ensures Valid() && handle && state.logged == old(state).logged
      ensures state.archived == old(state).archived + [Newest(old(state))]
      ensures disk.contents == old(disk.contents) + [[]]
      ensures forall start :: Extends(start, old(actions)) ==> Extends(start, actions)
    {
      handle := false;
      var token := Detach();
      ShiftBackups();
      PromoteStaging(token);
      disk := CreateFile(disk, Active);
      Note(Create);
      handle := true;
    }

    method FreshStaging() returns (token: nat)
      ensures Staging(token) !in disk.names
    {
      ghost var unused := FreshToken(disk.names.Keys);
      assert Staging(unused) !in disk.names;
      token :| Staging(token) !in disk.names;
    }

    /** Append one line, and rotate when that fills the file. */
    method RawWrite(raw: Bytes)
      requires Valid() && handle
      modifies this`disk, this`handle, this`actions, this`state
      ensures Valid() && handle && state.logged == old(state).logged + [Terminated(raw)]
      ensures Newest(old(state)) >= 0
      ensures var newest := Newest(old(state));
              var file := old(disk.contents)[newest] + [Terminated(raw)];
              var written := old(disk.contents)[newest := file];
              if Size(file) >= c.maxBytes
              then state.archived == old(state).archived + [newest] && disk.contents == written + [[]]
              else state.archived == old(state).archived && disk.contents == written
      ensures forall start :: Extends(start, old(actions)) ==> Extends(start, actions)
    {
      EveryRunIsSound(c, actions);
      var line := Terminated(raw);
      disk := AppendLine(disk, Active, line);
      Note(Write(line));
      if Size(disk.contents[disk.names[Active]]) >= c.maxBytes {
        RotateLocked();
      }
    }

    /** Log one event: into the buffer before approval, otherwise to the file, reopening it after a
        close or a failure. */
    method Emit(raw: Bytes)
      requires Valid()
      modifies this
      ensures Valid() && bufferPreflight == old(bufferPreflight)
      ensures bufferPreflight ==>
                && buffered == old(buffered) + [raw] && disk == old(disk)
                && handle == old(handle) && actions == old(actions)
      ensures !bufferPreflight ==>
                && handle && buffered == old(buffered)
                && state.logged == old(state).logged + [Terminated(raw)] && Extends(old(actions), actions)
      ensures Calm(c, old(actions)) ==> Calm(c, actions)
    {
      if bufferPreflight {
        buffered := buffered + [raw];
        return;
      }
      if !handle {
        OpenPersistent();
      }
      RawWrite(raw);
      StaysCalm(c, old(actions), actions);
    }

    /** Open the file and flush what was buffered, in order. */
    method ApprovePreflight()
      requires Valid()
      modifies this
      ensures Valid() && handle && !bufferPreflight && buffered == []
      ensures state.logged == old(state).logged + TerminatedAll(old(buffered))
      ensures Extends(old(actions), actions) && (Calm(c, old(actions)) ==> Calm(c, actions))
    {
      bufferPreflight := false;
      OpenPersistent();
      var events := buffered;
      buffered := [];
      for i := 0 to |events|
        invariant Valid() && handle && !bufferPreflight && buffered == []
        invariant state.logged == old(state).logged + TerminatedAll(events[..i])
        invariant Extends(old(actions), actions)
      {
        TerminatedNext(old(state).logged, events, i);
        RawWrite(events[i]);
      }
      assert events[..|events|] == events;
      StaysCalm(c, old(actions), actions);
    }

    /** Drop what was buffered, and touch no file. */
    method DenyPreflight()
      requires Valid()
      modifies this`buffered, this`bufferPreflight
      ensures Valid() && bufferPreflight && buffered == []
    {
      buffered, bufferPreflight := [], true;
    }

    method Close()
      requires Valid()
      modifies this`handle, this`actions, this`state
      ensures Valid() && !handle && disk == old(disk) && state.logged == old(state).logged
      ensures Calm(c, old(actions)) ==> Calm(c, actions)
    {
      if handle {
        assert (actions + [Kill])[..|actions|] == actions;
        Note(Kill);
        handle := false;
      }
    }
  }
}
