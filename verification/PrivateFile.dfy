/**
 WritePrivateFile (common/private_file.go): create a temporary file, write and sync
 it, then rename or link it over the target, with a deferred removal of the temporary
 name.  The writer is a step machine over one directory.  Other processes and the
 kernel act between any two of its system calls, every call can fail, and a crash is
 the end of a run at any point.  link() and rename() follow POSIX.1-2017.
 */
module PrivateFile {
  import opened Basics

  /** A directory entry.  A hard link names an inode; a symbolic link names a path. */
  datatype Entry = HardLink(inode: nat) | Symlink(to: string) | Subdirectory

  /** `content` is what a reader sees, `durable` what survives a crash. */
  datatype Inode = Inode(content: Bytes, durable: Bytes, mode: nat)

  datatype World = World(entries: map<string, Entry>, inodes: map<nat, Inode>)

  const PRIVATE_MODE: nat := 384 // 0600 in octal

  datatype Errno = EEXIST | EPERM | ENOTSUP | EOPNOTSUPP | EOTHER

  datatype Outcome = Success | OutputExists | HardLinksUnsupported | Failed

  const TEMP_PREFIX := ".rocketvault-export-"

  /** What CreateTemp makes of the pattern ".rocketvault-export-*": a random 64-bit number
      in decimal replaces the star. */
  predicate IsTempName(name: string) {
    TEMP_PREFIX <= name && var n := name[|TEMP_PREFIX|..];
    n != "" && AllDigits(n) && (n[0] == '0' ==> n == "0") && Value(n) < 0x1_0000_0000_0000_0000
  }

  /** What the caller asks for; `path` is the final component of the target. */
  datatype Job = Job(path: string, data: Bytes, overwrite: bool)

  /** How one system call ends, and what everyone else did just before it. */
  datatype Turn = Turn(
    others: World,          // the directory as other processes and the kernel leave it
    fault: Option<Errno>,   // the error the call reports, if any
    name: string,           // the name CreateTemp picks; one without its pattern is no success
    inode: nat,             // the inode the kernel allocates for it
    mode: nat,              // its mode after the umask
    debris: Bytes)      // what a failed write or sync leaves on disk

  datatype Phase =
    | Preparing | Creating | Chmodding | Writing | Syncing | Closing | Installing
    | Removing(pending: Outcome)
    | Aborted                                     // failed before there was a temporary file
    | Returned(result: Outcome, leftover: bool)   // `leftover`: the temporary name could not be removed

  datatype State = State(world: World, phase: Phase, tmp: string, inode: nat)

  /* ---------- the system calls on a directory ---------- */

  predicate FreshInode(w: World, inode: nat) {
    inode !in w.inodes && forall n | n in w.entries :: w.entries[n] != HardLink(inode)
  }

  /** link(): an existing entry, symbolic links included, is never replaced. */
  function LinkError(w: World, to: string, fault: Option<Errno>): Option<Errno> {
    if to in w.entries then (if fault.Some? then fault else Some(EEXIST))
    else if fault == Some(EEXIST) then None
    else fault
  }

  /** rename(): refuses to put a file over a directory, does nothing when both names
      are links to one inode, and otherwise replaces the entry `to` itself. */
  function Rename(w: World, from: string, to: string): Option<World> {
    if from !in w.entries then None
    else if to in w.entries && w.entries[to] == Subdirectory then None
    else if to in w.entries && w.entries[to] == w.entries[from] then Some(w)
    else Some(w.(entries := (w.entries - {from})[to := w.entries[from]]))
  }

  function IsHardLinkUnsupported(e: Errno): bool {
    e == EPERM || e == ENOTSUP || e == EOPNOTSUPP
  }

  function LinkOutcome(e: Errno): Outcome {
    if e == EEXIST then OutputExists
    else if IsHardLinkUnsupported(e) then HardLinksUnsupported
    else Failed
  }

  /* ---------- the writer, one system call at a time ---------- */

  predicate Owned(phase: Phase) {
    phase.Chmodding? || phase.Writing? || phase.Syncing? || phase.Closing? || phase.Installing? || phase.Removing?
  }

  function SetInode(w: World, inode: nat, v: Inode): World {
    w.(inodes := w.inodes[inode := v])
  }

  /** The writer's next system call, made in the world `s.world`. */
  function Call(job: Job, s: State, t: Turn): State
    requires Owned(s.phase) ==> s.inode in s.world.inodes && s.tmp in s.world.entries
  {
    var w := s.world;
    match s.phase
    case Preparing => s.(phase := if t.fault.Some? then Aborted else Creating)
    case Creating =>
      if t.fault.Some? || !IsTempName(t.name) || t.name in w.entries || !FreshInode(w, t.inode) then
        s.(phase := Aborted)
      else
        State(World(w.entries[t.name := HardLink(t.inode)], w.inodes[t.inode := Inode([], [], t.mode)]),
              Chmodding, t.name, t.inode)
    case Chmodding =>
      if t.fault.Some? then s.(phase := Removing(Failed))
      else s.(world := SetInode(w, s.inode, w.inodes[s.inode].(mode := PRIVATE_MODE)), phase := Writing)
    case Writing =>
      if t.fault.Some? then
        s.(world := SetInode(w, s.inode, w.inodes[s.inode].(content := t.debris)), phase := Removing(Failed))
      else s.(world := SetInode(w, s.inode, w.inodes[s.inode].(content := job.data)), phase := Syncing)
    case Syncing =>
      if t.fault.Some? then
        s.(world := SetInode(w, s.inode, w.inodes[s.inode].(durable := t.debris)), phase := Removing(Failed))
      else
        s.(world := SetInode(w, s.inode, w.inodes[s.inode].(durable := w.inodes[s.inode].content)), phase := Closing)
    case Closing => s.(phase := if t.fault.Some? then Removing(Failed) else Installing)
    case Installing =>
      if job.overwrite then
        var moved := if t.fault.Some? then None else Rename(w, s.tmp, job.path);
        if moved.None? then s.(phase := Removing(Failed))
        else s.(world := moved.value, phase := Returned(Success, false))
      else
        var err := LinkError(w, job.path, t.fault);
        if err.Some? then s.(phase := Removing(LinkOutcome(err.value)))
        else s.(world := w.(entries := w.entries[job.path := w.entries[s.tmp]]), phase := Removing(Success))
    case Removing(r) =>
      if t.fault.Some? then s.(phase := Returned(r, true))
      else s.(world := w.(entries := w.entries - {s.tmp}), phase := Returned(r, false))
    case Aborted => s
    case Returned(_, _) => s
  }

  /** The file's content, mode and links are left alone; the kernel may write it back,
      so its durable content is settled only once it equals its content. */
  predicate KeepsFile(w: World, w': World, inode: nat) {
    && (inode in w.inodes ==>
          && inode in w'.inodes
          && w'.inodes[inode].content == w.inodes[inode].content
          && w'.inodes[inode].mode == w.inodes[inode].mode
          && (w.inodes[inode].durable == w.inodes[inode].content ==>
                w'.inodes[inode].durable == w'.inodes[inode].content))
    && (forall n | n in w'.entries :: w'.entries[n] == HardLink(inode) ==> LinksTo(w, n, inode))
  }

  predicate KeepsName(w: World, w': World, name: string) {
    name in w.entries ==> name in w'.entries && w'.entries[name] == w.entries[name]
  }

  /** What other processes and the kernel may do: anything at all, except touch the
      temporary file, and its name while the writer holds it. */
  predicate Undisturbed(s: State, w: World) {
    Created(s.phase) ==> KeepsFile(s.world, w, s.inode) && (Owned(s.phase) ==> KeepsName(s.world, w, s.tmp))
  }

  ghost predicate WriterStep(job: Job, s: State, s': State) {
    && !s.phase.Returned? && !s.phase.Aborted?
    && (Owned(s.phase) ==> s.inode in s.world.inodes && s.tmp in s.world.entries)
    && exists t :: s' == Call(job, s, t)
  }

  ghost predicate OthersStep(s: State, s': State) {
    s' == s.(world := s'.world) && Undisturbed(s, s'.world)
  }

  /** Every interleaving of the writer with everyone else.  A crash after any step is
      the run that stops there, so every statement about all runs covers crashes. */
  ghost predicate IsRun(job: Job, run: seq<State>) {
    && |run| > 0
    && run[0].phase == Preparing
    && forall i | 0 <= i < |run| - 1 :: StepAt(job, run, i)
  }

  /** Step i is the writer's or someone else's. */
  ghost predicate StepAt(job: Job, run: seq<State>, i: int)
    requires 0 <= i < |run| - 1
  {
    WriterStep(job, run[i], run[i + 1]) || OthersStep(run[i], run[i + 1])
  }

  /** CreateTemp's random name is not the target's own name. */
  ghost predicate TempIsNotTarget(job: Job, run: seq<State>) {
    forall i | 0 <= i < |run| && Created(run[i].phase) :: run[i].tmp != job.path
  }

  /* ---------- the invariant ---------- */

  predicate Complete(job: Job, s: State) {
    s.inode in s.world.inodes && s.world.inodes[s.inode] == Inode(job.data, job.data, PRIVATE_MODE)
  }

  predicate LinksTo(w: World, name: string, inode: nat) {
    name in w.entries && w.entries[name] == HardLink(inode)
  }

  predicate Committed(phase: Phase) {
    phase == Removing(Success) || (phase.Returned? && phase.result == Success)
  }

  predicate Created(phase: Phase) {
    Owned(phase) || phase.Returned?
  }

  ghost predicate Inv(job: Job, s: State) {
    && (Owned(s.phase) ==> s.inode in s.world.inodes && LinksTo(s.world, s.tmp, s.inode))
    && (Created(s.phase) && !Committed(s.phase) ==>
          forall n | n in s.world.entries && n != s.tmp :: s.world.entries[n] != HardLink(s.inode))
    && (s.phase.Writing? || s.phase.Syncing? || s.phase.Closing? || s.phase.Installing? ==>
          s.world.inodes[s.inode].mode == PRIVATE_MODE)
    && (s.phase.Syncing? ==> s.world.inodes[s.inode].content == job.data)
    && (s.phase.Closing? || s.phase.Installing? || Committed(s.phase) ==> Complete(job, s))
  }

  function Target(w: World, path: string): Option<Entry> {
    if path in w.entries then Some(w.entries[path]) else None
  }

  /** Step i is the writer's own and changes the target entry. */
  ghost predicate Installs(job: Job, run: seq<State>, i: int)
    requires 0 <= i < |run| - 1
  {
    run[i].phase != run[i + 1].phase && Target(run[i].world, job.path) != Target(run[i + 1].world, job.path)
  }

  function Rank(phase: Phase): nat {
    match phase
    case Preparing => 0 case Creating => 1 case Chmodding => 2 case Writing => 3 case Syncing => 4
    case Closing => 5 case Installing => 6 case Removing(_) => 7 case Aborted => 8 case Returned(_, _) => 8
  }

  lemma WriterStepKeepsInv(job: Job, s: State, s': State)
    requires Inv(job, s) && WriterStep(job, s, s')
    requires Created(s'.phase) ==> s'.tmp != job.path
    ensures Inv(job, s')
    ensures Rank(s.phase) < Rank(s'.phase)
    ensures Created(s.phase) ==> Created(s'.phase) && s'.tmp == s.tmp && s'.inode == s.inode
    ensures Committed(s.phase) ==> Committed(s'.phase)
  {
    var t :| s' == Call(job, s, t);
  }

  /** The one step that changes the target is the install step, it happens exactly when
      the writer commits, and what it installs is whole, durable and private.  An existing
      output is reported only when there is one. */
  lemma WriterStepOnTarget(job: Job, s: State, s': State)
    requires Inv(job, s) && WriterStep(job, s, s')
    requires Created(s'.phase) ==> s'.tmp != job.path
    ensures Target(s.world, job.path) != Target(s'.world, job.path) <==> s.phase.Installing? && Committed(s'.phase)
    ensures Committed(s'.phase) && !Committed(s.phase) ==>
              && s.phase.Installing?
              && Target(s'.world, job.path) == Some(HardLink(s'.inode))
              && Complete(job, s')
              && (!job.overwrite ==> job.path !in s.world.entries)
    ensures s.phase.Installing? && s'.phase == Removing(OutputExists) ==> job.path in s.world.entries
  {
    var t :| s' == Call(job, s, t);
  }

  /** No step of the writer touches any other entry or any other inode: a symbolic link
      at the target is replaced itself, and the file it names keeps its content. */
  lemma WriterTouchesOnlyItsOwn(job: Job, s: State, s': State)
    requires WriterStep(job, s, s')
    ensures forall n | n != job.path && n != s'.tmp :: Target(s.world, n) == Target(s'.world, n)
    ensures forall i | i in s.world.inodes && i != s'.inode :: i in s'.world.inodes && s'.world.inodes[i] == s.world.inodes[i]
    ensures forall i | i in s'.world.inodes && i != s'.inode :: i in s.world.inodes
  {
    var t :| s' == Call(job, s, t);
  }

  /** What it creates has a name and an inode nothing had before. */
  lemma CreatesAfresh(job: Job, s: State, s': State)
    requires WriterStep(job, s, s') && !Created(s.phase) && Created(s'.phase)
    ensures s'.tmp !in s.world.entries && s'.inode !in s.world.inodes && IsTempName(s'.tmp)
    ensures s.phase == Creating && s'.phase == Chmodding
  {
    var t :| s' == Call(job, s, t);
  }

  /** A failing call is never taken for a success: up to the install step it ends in a
      failure, and the removal's own failure changes no result. */
  lemma FaultsAreReported(job: Job, s: State, t: Turn)
    requires Owned(s.phase) ==> s.inode in s.world.inodes && s.tmp in s.world.entries
    ensures var phase := Call(job, s, t).phase;
            && (s.phase == Preparing ==> phase == if t.fault.Some? then Aborted else Creating)
            && (s.phase == Creating ==>
                  (phase == Aborted <==> t.fault.Some? || !IsTempName(t.name) || t.name in s.world.entries || !FreshInode(s.world, t.inode)))
            && (s.phase.Chmodding? || s.phase.Writing? || s.phase.Syncing? || s.phase.Closing? ==>
                  (phase == Removing(Failed) <==> t.fault.Some?))
            && (s.phase.Removing? ==> phase == Returned(s.phase.pending, t.fault.Some?))
  {}

  /** How the install ends.  With overwrite it succeeds exactly when rename() does and no
      directory is in the way; without, exactly when link() does and nothing is in the way,
      and a file system without hard links is told apart from an existing output. */
  lemma InstallOutcome(job: Job, s: State, t: Turn)
    requires s.phase == Installing && s.inode in s.world.inodes && s.tmp in s.world.entries
    ensures var phase := Call(job, s, t).phase;
            var target := Target(s.world, job.path);
            if job.overwrite then
              phase == if t.fault.None? && target != Some(Subdirectory) then Returned(Success, false) else Removing(Failed)
            else match t.fault
              case None => phase == Removing(if target.None? then Success else OutputExists)
              case Some(e) =>
                phase == match e
                         case EEXIST => Removing(if target.None? then Success else OutputExists)
                         case EPERM => Removing(HardLinksUnsupported)
                         case ENOTSUP => Removing(HardLinksUnsupported)
                         case EOPNOTSUPP => Removing(HardLinksUnsupported)
                         case EOTHER => Removing(Failed)
  {}

  /** A directory at the target stays there. */
  lemma DirectoryIsKept(job: Job, s: State, s': State)
    requires WriterStep(job, s, s') && Target(s.world, job.path) == Some(Subdirectory)
    requires Owned(s.phase) ==> LinksTo(s.world, s.tmp, s.inode)
    ensures Target(s'.world, job.path) == Some(Subdirectory)
  {
    var t :| s' == Call(job, s, t);
  }

  /** When the writer returns, the temporary name is gone unless removing it failed. */
  lemma TempNameGoneOnReturn(job: Job, s: State, s': State)
    requires Inv(job, s) && WriterStep(job, s, s') && s'.phase.Returned?
    requires s'.tmp != job.path
    ensures s'.tmp in s'.world.entries <==> s'.phase.leftover
    ensures s'.phase.leftover ==> LinksTo(s'.world, s'.tmp, s'.inode)
  {
    var t :| s' == Call(job, s, t);
  }

  lemma {:induction false} RunInv(job: Job, run: seq<State>, i: nat)
    requires IsRun(job, run) && TempIsNotTarget(job, run) && i < |run|
    ensures Inv(job, run[i])
  {
    if i > 0 {
      RunInv(job, run, i - 1);
      assert StepAt(job, run, i - 1);
      if WriterStep(job, run[i - 1], run[i]) { WriterStepKeepsInv(job, run[i - 1], run[i]); }
    }
  }

  /** From s to s' the writer has only moved forward, kept its temporary file, and stayed
      committed if it was. */
  predicate Onward(s: State, s': State) {
    && Rank(s.phase) <= Rank(s'.phase)
    && (Created(s.phase) ==> Created(s'.phase) && s'.tmp == s.tmp && s'.inode == s.inode)
    && (Committed(s.phase) ==> Committed(s'.phase))
  }

  lemma StepIsOnward(job: Job, run: seq<State>, i: nat)
    requires IsRun(job, run) && TempIsNotTarget(job, run) && i < |run| - 1
    ensures Onward(run[i], run[i + 1])
  {
    RunInv(job, run, i);
    assert StepAt(job, run, i);
    if WriterStep(job, run[i], run[i + 1]) { WriterStepKeepsInv(job, run[i], run[i + 1]); }
  }

  /** So it is between any two points of a run. */
  lemma {:induction false} RunMonotone(job: Job, run: seq<State>, i: nat, j: nat)
    requires IsRun(job, run) && TempIsNotTarget(job, run) && i <= j < |run|
    ensures Onward(run[i], run[j])
    decreases j - i
  {
    if i < j {
      RunMonotone(job, run, i, j - 1);
      StepIsOnward(job, run, j - 1);
    }
  }

  /** The writer changes the target entry in at most one step of any run; that step
      installs the complete, durable, private file, and without overwrite it finds no
      entry there, symbolic links included. */
  lemma AtMostOneInstall(job: Job, run: seq<State>)
    requires IsRun(job, run) && TempIsNotTarget(job, run)
    ensures forall i | 0 <= i < |run| - 1 && Installs(job, run, i) ::
              && Target(run[i + 1].world, job.path) == Some(HardLink(run[i + 1].inode))
              && Complete(job, run[i + 1])
              && (!job.overwrite ==> job.path !in run[i].world.entries)
    ensures forall i, j | 0 <= i < j < |run| - 1 :: !(Installs(job, run, i) && Installs(job, run, j))
  {
    forall i | 0 <= i < |run| - 1 && Installs(job, run, i)
      ensures run[i].phase.Installing? && Committed(run[i + 1].phase)
      ensures Target(run[i + 1].world, job.path) == Some(HardLink(run[i + 1].inode)) && Complete(job, run[i + 1])
      ensures !job.overwrite ==> job.path !in run[i].world.entries
    {
      RunInv(job, run, i);
      assert StepAt(job, run, i);
      WriterStepOnTarget(job, run[i], run[i + 1]);
    }
    forall i, j | 0 <= i < j < |run| - 1 && Installs(job, run, i) && Installs(job, run, j) ensures false {
      RunMonotone(job, run, i + 1, j);
    }
  }

  /** Crash safety.  Whenever the run stops, whichever of its moments the directory
      falls back to, a target entry that names the writer's file names all of the data
      on disk, privately. */
  lemma CrashLeavesAllOrNothing(job: Job, run: seq<State>, i: nat)
    requires IsRun(job, run) && TempIsNotTarget(job, run) && i < |run|
    requires Created(run[i].phase) && LinksTo(run[i].world, job.path, run[i].inode)
    ensures Complete(job, run[|run| - 1])
    ensures run[|run| - 1].inode == run[i].inode
  {
    RunInv(job, run, i);
    RunMonotone(job, run, i, |run| - 1);
    RunInv(job, run, |run| - 1);
  }

  /** Some step before n installed the file. */
  ghost predicate InstalledBefore(job: Job, run: seq<State>, n: nat)
    requires n < |run|
  {
    exists i :: 0 <= i < n && Installs(job, run, i)
  }

  lemma InstalledStep(job: Job, run: seq<State>, n: nat)
    requires n + 1 < |run|
    ensures InstalledBefore(job, run, n + 1) <==> InstalledBefore(job, run, n) || Installs(job, run, n)
  {}

  /** The result tells the truth: at every point of a run the writer is committed
      exactly when an earlier step of its own installed the file, so an error means it
      never changed the target. */
  lemma {:induction false} CommittedIffInstalled(job: Job, run: seq<State>, n: nat)
    requires IsRun(job, run) && TempIsNotTarget(job, run) && n < |run|
    ensures Committed(run[n].phase) <==> InstalledBefore(job, run, n)
  {
    if n > 0 {
      CommittedIffInstalled(job, run, n - 1);
      InstallsIffCommits(job, run, n - 1);
      InstalledStep(job, run, n - 1);
    }
  }

  lemma InstallsIffCommits(job: Job, run: seq<State>, i: nat)
    requires IsRun(job, run) && TempIsNotTarget(job, run) && i < |run| - 1
    ensures Installs(job, run, i) <==> !Committed(run[i].phase) && Committed(run[i + 1].phase)
    ensures Committed(run[i].phase) ==> Committed(run[i + 1].phase)
  {
    RunInv(job, run, i);
    assert StepAt(job, run, i);
    if WriterStep(job, run[i], run[i + 1]) {
      WriterStepKeepsInv(job, run[i], run[i + 1]);
      WriterStepOnTarget(job, run[i], run[i + 1]);
    }
  }

  /** At no moment does the target name the writer's file before all of the data is in
      it, on disk and private. */
  ghost predicate TargetNeverPartial(job: Job, run: seq<State>) {
    forall i | 0 <= i < |run| && Created(run[i].phase) && LinksTo(run[i].world, job.path, run[i].inode) ::
      Complete(job, run[i])
  }

  /** The moment just after CreateTemp, when the temporary name names an empty file. */
  lemma {:induction false} CreationMoment(job: Job, run: seq<State>, i: nat) returns (j: nat)
    requires IsRun(job, run) && i < |run| && Created(run[i].phase)
    ensures j <= i && Created(run[j].phase) && run[j].tmp == run[i].tmp
    ensures LinksTo(run[j].world, run[j].tmp, run[j].inode)
    ensures run[j].inode in run[j].world.inodes && run[j].world.inodes[run[j].inode].content == []
  {
    assert StepAt(job, run, i - 1);
    if Created(run[i - 1].phase) {
      if WriterStep(job, run[i - 1], run[i]) { TempIsKept(job, run[i - 1], run[i]); }
      j := CreationMoment(job, run, i - 1);
    } else {
      var t :| run[i] == Call(job, run[i - 1], t);
      j := i;
    }
  }

  lemma TempIsKept(job: Job, s: State, s': State)
    requires WriterStep(job, s, s') && Created(s.phase)
    ensures s'.tmp == s.tmp && s'.inode == s.inode
  {
    var t :| s' == Call(job, s, t);
  }

  /** The target is never partial exactly when CreateTemp never picked its name. */
  lemma TargetNeverPartialIff(job: Job, run: seq<State>)
    requires IsRun(job, run) && job.data != []
    ensures TargetNeverPartial(job, run) <==> TempIsNotTarget(job, run)
  {
    if TempIsNotTarget(job, run) {
      forall i | 0 <= i < |run| && Created(run[i].phase) && LinksTo(run[i].world, job.path, run[i].inode)
        ensures Complete(job, run[i])
      {
        RunInv(job, run, i);
      }
    } else {
      var i :| 0 <= i < |run| && Created(run[i].phase) && run[i].tmp == job.path;
      var j := CreationMoment(job, run, i);
      assert !Complete(job, run[j]);
    }
  }

  /** In a directory without the target, CreateTemp can pick any name of its pattern, the
      target's own included. */
  lemma TempNameMustDiffer(job: Job)
    requires IsTempName(job.path)
    ensures exists run: seq<State> :: IsRun(job, run) && !TargetNeverPartial(job, run)
  {
    var empty := World(map[], map[]);
    var turn := Turn(empty, None, job.path, 0, 0, []);
    var s0 := State(empty, Preparing, "", 0);
    var s1 := Call(job, s0, turn);
    var s2 := Call(job, s1, turn);
    var run := [s0, s1, s2];
    assert WriterStep(job, s0, s1) && WriterStep(job, s1, s2);
    assert StepAt(job, run, 0) && StepAt(job, run, 1);
    assert IsRun(job, run);
    assert !Complete(job, run[2]) && LinksTo(run[2].world, job.path, run[2].inode);
  }

  lemma {:induction false} RunUsesTempNames(job: Job, run: seq<State>, i: nat)
    requires IsRun(job, run) && i < |run| && Created(run[i].phase)
    ensures IsTempName(run[i].tmp)
  {
    assert StepAt(job, run, i - 1);
    if Created(run[i - 1].phase) {
      if WriterStep(job, run[i - 1], run[i]) { TempIsKept(job, run[i - 1], run[i]); }
      RunUsesTempNames(job, run, i - 1);
    } else {
      var t :| run[i] == Call(job, run[i - 1], t);
    }
  }

  /** So a target that does not look like a temporary name is never one. */
  lemma TargetIsNotTemp(job: Job, run: seq<State>)
    requires IsRun(job, run) && !IsTempName(job.path)
    ensures TempIsNotTarget(job, run)
  {
    forall i | 0 <= i < |run| && Created(run[i].phase) ensures run[i].tmp != job.path {
      RunUsesTempNames(job, run, i);
    }
  }

  /** Everything WritePrivateFile promises of a run. */
  ghost predicate KeepsPromise(job: Job, run: seq<State>) {
    // The target names no partial file, now or after a crash.
    && TargetNeverPartial(job, run)
    && (forall i | 0 <= i < |run| && Created(run[i].phase) && LinksTo(run[i].world, job.path, run[i].inode) ::
          Complete(job, run[|run| - 1]) && run[|run| - 1].inode == run[i].inode)
    // It changes at most once, to the writer's file, and without overwrite only from nothing.
    && (forall i | 0 <= i < |run| - 1 && Installs(job, run, i) ::
          && Target(run[i + 1].world, job.path) == Some(HardLink(run[i + 1].inode)) && Complete(job, run[i + 1])
          && (!job.overwrite ==> job.path !in run[i].world.entries))
    && (forall i, j | 0 <= i < j < |run| - 1 :: !(Installs(job, run, i) && Installs(job, run, j)))
    // And the result tells whether it did.
    && (forall n | 0 <= n < |run| :: Committed(run[n].phase) <==> InstalledBefore(job, run, n))
  }

  /** In the file's mode the owner may read and write, and nobody else has any right. */
  lemma OnlyTheOwnerMayRead(job: Job, run: seq<State>, i: nat)
    requires IsRun(job, run) && KeepsPromise(job, run)
    requires i < |run| && Created(run[i].phase) && LinksTo(run[i].world, job.path, run[i].inode)
    ensures run[i].inode in run[i].world.inodes
    ensures var file := run[i].world.inodes[run[i].inode];
            file.content == file.durable == job.data && file.mode / 64 == 6 && file.mode % 64 == 0
  {
    assert Complete(job, run[i]);
  }

  lemma PromiseKept(job: Job, run: seq<State>)
    requires IsRun(job, run) && TempIsNotTarget(job, run)
    ensures KeepsPromise(job, run)
  {
    AtMostOneInstall(job, run);
    forall i | 0 <= i < |run| && Created(run[i].phase) && LinksTo(run[i].world, job.path, run[i].inode)
      ensures Complete(job, run[i]) && Complete(job, run[|run| - 1]) && run[|run| - 1].inode == run[i].inode
    {
      RunInv(job, run, i);
      CrashLeavesAllOrNothing(job, run, i);
    }
    forall n | 0 <= n < |run| ensures Committed(run[n].phase) <==> InstalledBefore(job, run, n) {
      CommittedIffInstalled(job, run, n);
    }
  }

  /** The writer keeps its promise in every run exactly when the target's name does not
      have the form of its temporary names. */
  lemma PromiseKeptIff(job: Job)
    ensures (forall run | IsRun(job, run) :: KeepsPromise(job, run)) <==> !IsTempName(job.path)
  {
    if IsTempName(job.path) {
      TempNameMustDiffer(job);
    } else {
      forall run | IsRun(job, run) ensures KeepsPromise(job, run) {
        TargetIsNotTemp(job, run);
        PromiseKept(job, run);
      }
    }
  }

  /* ---------- the code itself ---------- */

  datatype LstatResult = Found | NotFound | Uncheckable

  lemma WriterLeavesPreparing(job: Job, s: State, s': State)
    requires WriterStep(job, s, s')
    ensures s'.phase != Preparing
  {
    var t :| s' == Call(job, s, t);
  }

  /** Until the writer starts, its job makes no difference. */
  lemma {:induction false} WaitingRunServesAnyJob(job: Job, run: seq<State>, i: nat, job': Job)
    requires IsRun(job, run) && i < |run| && run[i].phase == Preparing
    ensures IsRun(job', run[..i + 1])
  {
    if i == 0 {
    } else {
      assert StepAt(job, run, i - 1);
      if WriterStep(job, run[i - 1], run[i]) { WriterLeavesPreparing(job, run[i - 1], run[i]); }
      WaitingRunServesAnyJob(job, run, i - 1, job');
      RunExtends(job', run[..i], run[i]);
      assert run[..i + 1] == run[..i] + [run[i]];
    }
  }

  datatype TempFile = TempFile(name: string, inode: nat)

  predicate Holds(w: World, f: TempFile) {
    f.inode in w.inodes && LinksTo(w, f.name, f.inode)
  }

  lemma RunExtends(job: Job, run: seq<State>, s: State)
    requires IsRun(job, run)
    requires WriterStep(job, run[|run| - 1], s) || OthersStep(run[|run| - 1], s)
    ensures IsRun(job, run + [s])
  {
    var longer := run + [s];
    forall i | 0 <= i < |longer| - 1 ensures StepAt(job, longer, i) {
      assert longer[i] == run[i];
      if i < |run| - 1 { assert StepAt(job, run, i) && longer[i + 1] == run[i + 1]; }
    }
  }

  predicate NoFaults(turns: seq<Turn>) { forall i | 0 <= i < |turns| :: turns[i].fault.None? }

  /** The process running the writer.  `turns` fixes how every system call ends and what
      happens just before it; interference that would touch the temporary file is left
      out.  `run` records every state passed through. */
  class Host {
    var world: World
    var turns: seq<Turn>
    ghost var run: seq<State>

    constructor (world: World, turns: seq<Turn>)
      ensures this.world == world && this.turns == turns
      ensures forall job :: At(job, Preparing)
    {
      this.world, this.turns := world, turns;
      run := [State(world, Preparing, "", 0)];
    }

    /** The recorded run is a run of `job`'s writer that has reached `phase`. */
    ghost predicate At(job: Job, phase: Phase)
      reads this
    {
      IsRun(job, run) && run[|run| - 1].world == world && run[|run| - 1].phase == phase
    }

    ghost predicate Holding(job: Job, phase: Phase, f: TempFile)
      reads this
    {
      At(job, phase) && Owned(phase) && Holds(world, f) && run[|run| - 1].tmp == f.name && run[|run| - 1].inode == f.inode
    }

    /** Everyone else acts until the next system call of this process is made. */
    method Interfere(ghost job: Job, ghost phase: Phase, held: Option<TempFile>) returns (t: Turn)
      requires At(job, phase) && (held.None? ==> !Created(phase)) && (held.Some? ==> Holding(job, phase, held.value))
      modifies this
      ensures At(job, phase) && (held.Some? ==> Holding(job, phase, held.value))
      ensures old(run) <= run
      ensures NoFaults(old(turns)) ==> t.fault.None? && NoFaults(turns)
    {
      if turns == [] { return Turn(world, None, "", 0, 0, []); }
      t, turns := turns[0], turns[1..];
      if held.None? || (KeepsFile(world, t.others, held.value.inode) && KeepsName(world, t.others, held.value.name)) {
        ghost var s := run[|run| - 1].(world := t.others);
        RunExtends(job, run, s);
        world, run := t.others, run + [s];
      }
    }

    /** Records the state after a system call of the writer's own. */
    ghost method Record(job: Job, t: Turn, s: State)
      requires IsRun(job, run) && !run[|run| - 1].phase.Returned? && !run[|run| - 1].phase.Aborted?
      requires Owned(run[|run| - 1].phase) ==> Holds(run[|run| - 1].world, TempFile(run[|run| - 1].tmp, run[|run| - 1].inode))
      requires s == Call(job, run[|run| - 1], t)
      modifies this`run
      ensures IsRun(job, run) && run == old(run) + [s]
    {
      assert WriterStep(job, run[|run| - 1], s);
      RunExtends(job, run, s);
      run := run + [s];
    }

    /** Looks at an entry without following it, before the writer starts. */
    method Lstat(path: string) returns (r: LstatResult)
      requires forall job :: At(job, Preparing)
      modifies this
      ensures forall job :: At(job, Preparing)
      ensures old(run) <= run
      ensures r == Found ==> path in world.entries
      ensures r == NotFound ==> path !in world.entries
      ensures NoFaults(old(turns)) ==> r != Uncheckable
    {
      ghost var anyJob := Job(path, [], false);
      var t := Interfere(anyJob, Preparing, None);
      forall job ensures At(job, Preparing) {
        WaitingRunServesAnyJob(anyJob, run, |run| - 1, job);
        assert run[..|run|] == run;
      }
      r := if t.fault.Some? then Uncheckable else if path in world.entries then Found else NotFound;
    }

    method MkdirAll(ghost job: Job) returns (err: Option<Errno>)
      requires At(job, Preparing)
      modifies this
      ensures At(job, if err.Some? then Aborted else Creating) && old(run) <= run
      ensures NoFaults(old(turns)) ==> err.None? && NoFaults(turns)
    {
      var t := Interfere(job, Preparing, None);
      err := t.fault;
      Record(job, t, run[|run| - 1].(phase := if err.Some? then Aborted else Creating));
    }

    method CreateTemp(ghost job: Job) returns (f: Option<TempFile>)
      requires At(job, Creating)
      modifies this
      ensures f.None? ==> At(job, Aborted)
      ensures f.Some? ==> Holding(job, Chmodding, f.value) && IsTempName(f.value.name)
      ensures old(run) <= run
      ensures NoFaults(old(turns)) ==> NoFaults(turns)
    {
      var t := Interfere(job, Creating, None);
      if t.fault.Some? || !IsTempName(t.name) || t.name in world.entries || !FreshInode(world, t.inode) {
        Record(job, t, run[|run| - 1].(phase := Aborted));
        return None;
      }
      world := World(world.entries[t.name := HardLink(t.inode)], world.inodes[t.inode := Inode([], [], t.mode)]);
      Record(job, t, State(world, Chmodding, t.name, t.inode));
      return Some(TempFile(t.name, t.inode));
    }

    method Chmod(ghost job: Job, f: TempFile) returns (err: Option<Errno>)
      requires Holding(job, Chmodding, f)
      modifies this
      ensures Holding(job, if err.Some? then Removing(Failed) else Writing, f) && old(run) <= run
      ensures NoFaults(old(turns)) ==> err.None? && NoFaults(turns)
    {
      var t := Interfere(job, Chmodding, Some(f));
      err := t.fault;
      if err.None? {
        world := SetInode(world, f.inode, world.inodes[f.inode].(mode := PRIVATE_MODE));
      }
      Record(job, t, State(world, if err.Some? then Removing(Failed) else Writing, f.name, f.inode));
    }

    method Write(ghost job: Job, f: TempFile, data: Bytes) returns (err: Option<Errno>)
      requires Holding(job, Writing, f) && data == job.data
      modifies this
      ensures Holding(job, if err.Some? then Removing(Failed) else Syncing, f) && old(run) <= run
      ensures NoFaults(old(turns)) ==> err.None? && NoFaults(turns)
    {
      var t := Interfere(job, Writing, Some(f));
      err := t.fault;
      world := SetInode(world, f.inode, world.inodes[f.inode].(content := if err.Some? then t.debris else data));
      Record(job, t, State(world, if err.Some? then Removing(Failed) else Syncing, f.name, f.inode));
    }

    method Sync(ghost job: Job, f: TempFile) returns (err: Option<Errno>)
      requires Holding(job, Syncing, f)
      modifies this
      ensures Holding(job, if err.Some? then Removing(Failed) else Closing, f) && old(run) <= run
      ensures NoFaults(old(turns)) ==> err.None? && NoFaults(turns)
    {
      var t := Interfere(job, Syncing, Some(f));
      err := t.fault;
      var v := world.inodes[f.inode];
      world := SetInode(world, f.inode, v.(durable := if err.Some? then t.debris else v.content));
      Record(job, t, State(world, if err.Some? then Removing(Failed) else Closing, f.name, f.inode));
    }

    method Close(ghost job: Job, f: TempFile) returns (err: Option<Errno>)
      requires Holding(job, Closing, f)
      modifies this
      ensures Holding(job, if err.Some? then Removing(Failed) else Installing, f) && old(run) <= run
      ensures NoFaults(old(turns)) ==> err.None? && NoFaults(turns)
    {
      var t := Interfere(job, Closing, Some(f));
      err := t.fault;
      Record(job, t, State(world, if err.Some? then Removing(Failed) else Installing, f.name, f.inode));
    }

    method RenameOver(ghost job: Job, f: TempFile, path: string) returns (ok: bool)
      requires Holding(job, Installing, f) && path == job.path && job.overwrite
      modifies this
      ensures ok ==> At(job, Returned(Success, false))
      ensures !ok ==> Holding(job, Removing(Failed), f)
      ensures old(run) <= run
      ensures NoFaults(old(turns)) ==> NoFaults(turns)
      ensures NoFaults(old(turns)) && !ok ==> Target(world, path) == Some(Subdirectory)
    {
      var t := Interfere(job, Installing, Some(f));
      var moved := if t.fault.Some? then None else Rename(world, f.name, path);
      ok := moved.Some?;
      if ok { world := moved.value; }
      Record(job, t, State(world, if ok then Returned(Success, false) else Removing(Failed), f.name, f.inode));
    }

    method Link(ghost job: Job, f: TempFile, path: string) returns (err: Option<Errno>)
      requires Holding(job, Installing, f) && path == job.path && !job.overwrite
      modifies this
      ensures Holding(job, Removing(if err.Some? then LinkOutcome(err.value) else Success), f) && old(run) <= run
      ensures NoFaults(old(turns)) ==> NoFaults(turns)
      ensures NoFaults(old(turns)) && err.Some? ==> err == Some(EEXIST) && path in world.entries
    {
      var t := Interfere(job, Installing, Some(f));
      err := LinkError(world, path, t.fault);
      if err.None? { world := world.(entries := world.entries[path := HardLink(f.inode)]); }
      Record(job, t, State(world, Removing(if err.Some? then LinkOutcome(err.value) else Success), f.name, f.inode));
    }

    method Remove(ghost job: Job, f: TempFile, ghost pending: Outcome)
      requires Holding(job, Removing(pending), f)
      modifies this
      ensures At(job, Returned(pending, true)) || At(job, Returned(pending, false))
      ensures old(run) <= run
    {
      var t := Interfere(job, Removing(pending), Some(f));
      if t.fault.None? { world := world.(entries := world.entries - {f.name}); }
      Record(job, t, State(world, Returned(pending, t.fault.Some?), f.name, f.inode));
    }

    method WriteAndSync(ghost job: Job, f: TempFile, data: Bytes) returns (ok: bool)
      requires Holding(job, Chmodding, f) && data == job.data
      modifies this
      ensures Holding(job, if ok then Installing else Removing(Failed), f) && old(run) <= run
      ensures NoFaults(old(turns)) ==> ok && NoFaults(turns)
    {
      var err := Chmod(job, f);
      if err.Some? { return false; }
      err := Write(job, f, data);
      if err.Some? { return false; }
      err := Sync(job, f);
      if err.Some? { return false; }
      err := Close(job, f);
      return err.None?;
    }

    /** Everything between the creation of the temporary file and the deferred removal. */
    method WriteAndInstall(job: Job, f: TempFile) returns (result: Outcome, renamed: bool)
      requires Holding(job, Chmodding, f)
      modifies this
      ensures renamed ==> result == Success && At(job, Returned(Success, false))
      ensures !renamed ==> Holding(job, Removing(result), f)
      ensures old(run) <= run
      ensures NoFaults(old(turns)) ==> result == Success || result == if job.overwrite then Failed else OutputExists
    {
      renamed := false;
      var written := WriteAndSync(job, f, job.data);
      if !written { return Failed, renamed; }
      if job.overwrite {
        var moved := RenameOver(job, f, job.path);
        if !moved { return Failed, renamed; }
        renamed := true;
        return Success, renamed;
      }
      var err := Link(job, f, job.path);
      if err.Some? { return LinkOutcome(err.value), renamed; }
      return Success, renamed;
    }

    /** The whole call is one run of the machine, ending in the result it returns. */
    method WritePrivateFile(job: Job) returns (result: Outcome)
      requires At(job, Preparing)
      modifies this
      ensures IsRun(job, run) && old(run) <= run && run[|run| - 1].world == world
      ensures (result == Failed && At(job, Aborted)) || At(job, Returned(result, true)) || At(job, Returned(result, false))
      // Once it has its temporary file and no call fails, it stops only for a directory in
      // the way of an overwrite, or for any entry in the way of a plain write.
      ensures NoFaults(old(turns)) && !At(job, Aborted) ==>
                result == Success || result == if job.overwrite then Failed else OutputExists
    {
      var err := MkdirAll(job);
      if err.Some? { return Failed; }
      var f := CreateTemp(job);
      if f.None? { return Failed; }
      var renamed;
      result, renamed := WriteAndInstall(job, f.value);
      if !renamed { Remove(job, f.value, result); }
    }
  }
}
