/** "export open" (cmd/export.go): refuse early, open the sealed file, then hand its
    content to WritePrivateFile. */
module ExportOpen {
  import opened Basics
  import opened PrivateFile
  import opened SealedExport

  const MAX_SEALED_BYTES := 1048576

  datatype Reply =
    | StdoutRefused | AlreadyExists | Uncheckable | ReadFailed | NotSealed | NoPassphrase
    | OpenFailed(error: Error) | EmptyContent | WriteFailed(outcome: Outcome) | Opened

  /** A sealed export of a sensible size that opens to something. */
  predicate OpensToContent(c: Primitives, sealed: Option<Bytes>, passphrase: Option<Bytes>)
    requires IdealKdf(c)
  {
    && sealed.Some? && |sealed.value| <= MAX_SEALED_BYTES && IsSealedExport(c, sealed.value) && passphrase.Some?
    && OpenItemExport(c, sealed.value, passphrase.value).Ok?
    && OpenItemExport(c, sealed.value, passphrase.value).value.content != []
  }

  /** What the file opens to.  `sealed` is its content and `passphrase` the resolved
      passphrase; None when it cannot be read or is not available. */
  method OpenedContent(c: Primitives, sealed: Option<Bytes>, passphrase: Option<Bytes>) returns (r: Result<Bytes, Reply>)
    requires IdealKdf(c)
    ensures r.Ok? <==> OpensToContent(c, sealed, passphrase)
    ensures r.Ok? ==> r.value == OpenItemExport(c, sealed.value, passphrase.value).value.content
    ensures r == Err(ReadFailed) <==> sealed.None?
    ensures r == Err(NotSealed) <==> sealed.Some? && (|sealed.value| > 1048576 || !IsSealedExport(c, sealed.value))
    ensures r == Err(NoPassphrase) <==> sealed.Some? && |sealed.value| <= 1048576 && IsSealedExport(c, sealed.value) && passphrase.None?
    ensures r.Err? ==> r.error in {ReadFailed, NotSealed, NoPassphrase, EmptyContent} || r.error.OpenFailed?
    ensures r.Err? && r.error.OpenFailed? ==>
              sealed.Some? && passphrase.Some? && OpenItemExport(c, sealed.value, passphrase.value) == Err(r.error.error)
  {
    if sealed.None? { return Err(ReadFailed); }
    if |sealed.value| > MAX_SEALED_BYTES { return Err(NotSealed); }
    if !IsSealedExport(c, sealed.value) { return Err(NotSealed); }
    if passphrase.None? { return Err(NoPassphrase); }
    var p := OpenItemExport(c, sealed.value, passphrase.value);
    if p.Err? { return Err(OpenFailed(p.error)); }
    if p.value.content == [] { return Err(EmptyContent); }
    return Ok(p.value.content);
  }

  /** The write is a run of the writer that keeps its promise unless the target is named
      like a temporary file, and the reply tells whether the file was installed. */
  ghost predicate Attempted(run: seq<State>, job: Job, reply: Reply) {
    && IsRun(job, run) && (!IsTempName(job.path) ==> KeepsPromise(job, run))
    && (reply == Opened <==> Committed(run[|run| - 1].phase))
  }

  /** The write is of exactly what the file opens to, where it was asked for. */
  ghost predicate WritesContent(job: Job, c: Primitives, out: string, force: bool, sealed: Option<Bytes>, passphrase: Option<Bytes>)
    requires IdealKdf(c)
  {
    && OpensToContent(c, sealed, passphrase)
    && job == Job(out, OpenItemExport(c, sealed.value, passphrase.value).value.content, force)
  }

  /** The checks made before anything is read: they leave the writer where it was. */
  method CheckOutput(host: Host, out: string, force: bool) returns (refusal: Option<Reply>)
    requires forall j :: host.At(j, Preparing)
    modifies host
    ensures old(host.run) <= host.run && forall j :: host.At(j, Preparing)
    ensures refusal == Some(StdoutRefused) <==> out == "" || out == "-"
    ensures refusal == Some(AlreadyExists) ==> !force && out in host.world.entries
    ensures refusal == Some(Reply.Uncheckable) ==> !force && !NoFaults(old(host.turns))
    ensures refusal in {None, Some(StdoutRefused), Some(AlreadyExists), Some(Reply.Uncheckable)}
    ensures refusal.None? && !force ==> out !in host.world.entries
    ensures force && out != "" && out != "-" ==> refusal.None?
  {
    if out == "" || out == "-" { return Some(StdoutRefused); }
    if !force {
      var r := host.Lstat(out);
      if r == Found { return Some(AlreadyExists); }
      if r == LstatResult.Uncheckable { return Some(Reply.Uncheckable); }
    }
    return None;
  }

  /** `job` is the write that was attempted. */
  method RunExportOpen(host: Host, c: Primitives, out: string, force: bool, sealed: Option<Bytes>, passphrase: Option<Bytes>)
    returns (reply: Reply, ghost job: Option<Job>)
    requires IdealKdf(c) && forall j :: host.At(j, Preparing)
    modifies host
    ensures old(host.run) <= host.run
    // Without a write the writer never started: no call of its own was made.
    ensures job.None? ==> reply != Opened && forall j :: host.At(j, Preparing)
    // A write is of exactly the content the file opens to, at the path asked for.
    ensures job.Some? ==> Attempted(host.run, job.value, reply) && WritesContent(job.value, c, out, force, sealed, passphrase)
    // Standard output is refused, and without force an entry at the target is.
    ensures reply == StdoutRefused <==> out == "" || out == "-"
    ensures reply == AlreadyExists && job.None? ==> !force && out in host.world.entries
    ensures reply == Reply.Uncheckable ==> !force && !NoFaults(old(host.turns))
    // With force nothing else stands in the way of the write.
    ensures force && out != "" && out != "-" ==> (job.Some? <==> OpensToContent(c, sealed, passphrase))
  {
    var refusal := CheckOutput(host, out, force);
    if refusal.Some? { return refusal.value, None; }
    reply, job := OpenAndWrite(host, c, out, force, sealed, passphrase);
  }

  /** Opens the file and writes what is in it. */
  method OpenAndWrite(host: Host, c: Primitives, out: string, force: bool, sealed: Option<Bytes>, passphrase: Option<Bytes>)
    returns (reply: Reply, ghost job: Option<Job>)
    requires IdealKdf(c) && forall j :: host.At(j, Preparing)
    modifies host
    ensures old(host.run) <= host.run
    ensures job.Some? <==> OpensToContent(c, sealed, passphrase)
    ensures job.None? ==> reply !in {Opened, AlreadyExists} && forall j :: host.At(j, Preparing)
    ensures job.Some? ==> Attempted(host.run, job.value, reply) && WritesContent(job.value, c, out, force, sealed, passphrase)
    ensures reply != StdoutRefused && reply != Reply.Uncheckable
  {
    var content := OpenedContent(c, sealed, passphrase);
    if content.Err? { return content.error, None; }
    reply, job := WriteOpened(host, Job(out, content.value, force));
  }

  method WriteOpened(host: Host, theJob: Job) returns (reply: Reply, ghost job: Option<Job>)
    requires host.At(theJob, Preparing)
    modifies host
    ensures old(host.run) <= host.run && job == Some(theJob) && Attempted(host.run, theJob, reply)
    ensures reply == Opened || reply == AlreadyExists || reply.WriteFailed?
  {
    job := Some(theJob);
    var outcome := host.WritePrivateFile(theJob);
    if !IsTempName(theJob.path) {
      TargetIsNotTemp(theJob, host.run);
      PromiseKept(theJob, host.run);
    }
    reply := if outcome == Success then Opened else if outcome == OutputExists then AlreadyExists else WriteFailed(outcome);
  }

  /** End to end: open what was sealed, and whenever the machine stops, a target entry
      that names the new file names all of the sealed content, on disk and privately;
      and the target was changed by this command at most once. */
  lemma TargetHoldsTheSealedContent(c: Primitives, p: Item, passphrase: Bytes, salt: Salt, nonce: Nonce, data: Bytes,
                                    job: Job, run: seq<State>, i: nat)
    requires Ideal(c) && ItemIsText(p)
    requires SealItemExport(c, p, passphrase, Some(salt), Some(nonce)) == Ok(data)
    requires OpenItemExport(c, data, passphrase).Ok? ==> job.data == OpenItemExport(c, data, passphrase).value.content
    requires IsRun(job, run) && (!IsTempName(job.path) || TempIsNotTarget(job, run))
    requires i < |run| && Created(run[i].phase) && LinksTo(run[i].world, job.path, run[i].inode)
    ensures var last := run[|run| - 1];
            last.inode in last.world.inodes && last.world.inodes[last.inode] == Inode(p.content, p.content, PRIVATE_MODE)
    ensures forall j, k | 0 <= j < k < |run| - 1 :: !(Installs(job, run, j) && Installs(job, run, k))
  {
    OpenSealedItem(c, p, passphrase, salt, nonce, passphrase, data);
    if !IsTempName(job.path) { TargetIsNotTemp(job, run); }
    CrashLeavesAllOrNothing(job, run, i);
    AtMostOneInstall(job, run);
  }
}
