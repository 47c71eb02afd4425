/** The resumable download loop of one job: attempts, verification, finalization and registration. */
module Download {
  import opened Wrappers

  type Bytes = seq<bv8>

  const MAX_ATTEMPTS: nat := 3
  const OK_STATUS: int := 200
  const PARTIAL_CONTENT: int := 206

  /** How the transfer of a response body ended. */
  datatype BodyEnd = Complete | Cut | Canceled

  /** The answer to one request: no answer, or a status and the body bytes written before the end. */
  datatype Reply = NoReply(canceled: bool) | Response(status: int, body: Bytes, end: BodyEnd)

  /** What surrounds one attempt: cancellation before it, the server's answer to a request resuming at
      an offset, a failure to open the part file, and cancellation during the wait after it. */
  datatype AttemptEnv = AttemptEnv(canceledBefore: bool, serve: nat -> Reply, openFails: bool, canceledWaiting: bool)

  datatype FileEnv = FileEnv(attempt: nat -> AttemptEnv, renameFails: bool, recordFails: bool)

  /** A file of the job: its remote content, and its checksum and header tests where they apply. */
  datatype FileInfo = FileInfo(remote: Bytes, checksum: Option<Bytes -> bool>, header: Option<Bytes -> bool>)

  /** On disk: the .part file and the final path. In the store: whether the file is marked verified. */
  datatype FileState = FileState(part: Option<Bytes>, final: Option<Bytes>, verified: bool)

  datatype Outcome = Done | Stopped | Failed

  // ---- Specification ----

  function PartSize(f: FileState): nat
  {
    if f.part.Some? then |f.part.value| else 0
  }

  function AfterBody(end: BodyEnd): Outcome
  {
    match end
    case Complete => Done
    case Cut => Failed
    case Canceled => Stopped
  }

  /** One attempt: 206 to a resuming request appends, 200 starts over, anything else fails. */
  function Attempt(f: FileState, a: AttemptEnv): (FileState, Outcome)
  {
    match a.serve(PartSize(f))
    case NoReply(canceled) => (f, if canceled then Stopped else Failed)
    case Response(status, body, end) =>
      if status == PARTIAL_CONTENT && PartSize(f) > 0 then
        if a.openFails then (f, Failed) else (f.(part := Some(f.part.value + body)), AfterBody(end))
      else if status == OK_STATUS then
        if a.openFails then (f, Failed) else (f.(part := Some(body)), AfterBody(end))
      else (f, Failed)
  }

  /** Attempts k, k+1, ... up to the retry budget. */
  function Attempts(f: FileState, env: FileEnv, k: nat): (FileState, Outcome)
    decreases MAX_ATTEMPTS - k
  {
    if k >= MAX_ATTEMPTS then (f, Failed)
    else if env.attempt(k).canceledBefore then (f, Stopped)
    else
      var (f', outcome) := Attempt(f, env.attempt(k));
      if outcome != Failed then (f', outcome)
      else if k + 1 < MAX_ATTEMPTS && env.attempt(k).canceledWaiting then (f', Stopped)
      else Attempts(f', env, k + 1)
  }

  predicate Passes(info: FileInfo, content: Bytes)
  {
    && (info.checksum.Some? ==> info.checksum.value(content))
    && (info.header.Some? ==> info.header.value(content))
  }

  /** A whole file: refuse an existing destination, download, verify, rename, record. */
  function DownloadFile(info: FileInfo, f: FileState, env: FileEnv): (FileState, Outcome)
  {
    if f.final.Some? then (f, Failed)
    else
      var (f', outcome) := Attempts(f, env, 0);
      if outcome != Done then (f', outcome)
      else if f'.part.None? || !Passes(info, f'.part.value) || env.renameFails then (f', Failed)
      else (FileState(None, f'.part, !env.recordFails || f'.verified), Done)
  }

  /** The files from index i on; the first one that does not finish ends the run. */
  function RunFrom(infos: seq<FileInfo>, files: seq<FileState>, envs: nat -> FileEnv, i: nat): (seq<FileState>, Outcome)
    requires |infos| == |files|
    decreases |files| - i
  {
    if i >= |files| then (files, Done)
    else if files[i].verified then RunFrom(infos, files, envs, i + 1)
    else
      var (f, outcome) := DownloadFile(infos[i], files[i], envs(i));
      if outcome == Done then RunFrom(infos, files[i := f], envs, i + 1) else (files[i := f], outcome)
  }

  function WithoutParts(files: seq<FileState>): (r: seq<FileState>)
    ensures |r| == |files|
  {
    seq(|files|, i requires 0 <= i < |files| => files[i].(part := None))
  }

  datatype Job = Job(files: seq<FileState>, registered: bool)

  /** What can happen to a job: a worker run, whose stop may be a cancellation, or a cancellation while
      no worker runs. */
  datatype Event = Run(envs: nat -> FileEnv, cancelIntended: bool) | CancelIdle

  function Handle(infos: seq<FileInfo>, job: Job, e: Event): (r: Job)
    requires |infos| == |job.files|
    ensures |r.files| == |infos|
  {
    match e
    case CancelIdle => job.(files := WithoutParts(job.files))
    case Run(envs, cancelIntended) =>
      RunKeepsLength(infos, job.files, envs, 0);
      var (files, outcome) := RunFrom(infos, job.files, envs, 0);
      match outcome
      case Done => Job(files, true)
      case Stopped => job.(files := if cancelIntended then WithoutParts(files) else files)
      case Failed => job.(files := files)
  }

  lemma {:induction false} RunKeepsLength(infos: seq<FileInfo>, files: seq<FileState>, envs: nat -> FileEnv, i: nat)
    requires |infos| == |files|
    ensures |RunFrom(infos, files, envs, i).0| == |files|
    decreases |files| - i
  {
    if i < |files| {
      if files[i].verified {
        RunKeepsLength(infos, files, envs, i + 1);
      } else {
        var (f, outcome) := DownloadFile(infos[i], files[i], envs(i));
        RunKeepsLength(infos, files[i := f], envs, i + 1);
      }
    }
  }

  function Life(infos: seq<FileInfo>, job: Job, events: seq<Event>): (r: Job)
    requires |infos| == |job.files|
    ensures |r.files| == |infos|
    decreases |events|
  {
    if events == [] then job else Handle(infos, Life(infos, job, events[..|events| - 1]), events[|events| - 1])
  }

  // ---- The worker ----

  class Worker {
    const infos: seq<FileInfo>
    var files: seq<FileState>
    var registered: bool

    ghost predicate Valid()
      reads this
    {
      |infos| == |files|
    }

    constructor (infos: seq<FileInfo>, files: seq<FileState>)
      requires |infos| == |files|
      ensures Valid() && this.infos == infos && this.files == files && !registered
    {
      this.infos, this.files, registered := infos, files, false;
    }

    method DownloadFileAttempt(i: nat, a: AttemptEnv) returns (outcome: Outcome)
      requires i < |files|
      modifies this`files
      ensures (files, outcome) == (old(files)[i := Attempt(old(files)[i], a).0], Attempt(old(files)[i], a).1)
    {
      assert files[i := files[i]] == files;
      var resumeFrom := if files[i].part.Some? then |files[i].part.value| else 0;
      var reply := a.serve(resumeFrom);
      if reply.NoReply? {
        outcome := if reply.canceled then Stopped else Failed;
        return;
      }
      var appending := false;
      if reply.status == PARTIAL_CONTENT && resumeFrom > 0 {
        appending := true;
      } else if reply.status != OK_STATUS {
        return Failed;
      }
      if a.openFails {
        return Failed;
      }
      var base := if appending then files[i].part.value else [];
      assert [] + reply.body == reply.body;
      files := files[i := files[i].(part := Some(base + reply.body))];
      outcome := AfterBody(reply.end);
    }

    method DownloadAndVerifyFile(i: nat, env: FileEnv) returns (outcome: Outcome)
      requires i < |infos| && Valid()
      modifies this`files
      ensures Valid()
      ensures files == old(files)[i := DownloadFile(infos[i], old(files)[i], env).0]
      ensures outcome == DownloadFile(infos[i], old(files)[i], env).1
    {
      if files[i].final.Some? {
        return Failed;
      }
      outcome := Failed;
      var attempt: nat := 0;
      while attempt < MAX_ATTEMPTS && outcome == Failed
        invariant attempt <= MAX_ATTEMPTS && |files| == |old(files)|
        invariant files == old(files)[i := files[i]]
        invariant outcome != Stopped
        invariant Attempts(old(files)[i], env, 0) ==
          if outcome == Failed then Attempts(files[i], env, attempt) else (files[i], outcome)
        decreases MAX_ATTEMPTS - attempt
      {
        var a := env.attempt(attempt);
        if a.canceledBefore {
          return Stopped;
        }
        outcome := DownloadFileAttempt(i, a);
        if outcome == Stopped {
          return;
        }
        if outcome == Failed && attempt + 1 < MAX_ATTEMPTS && a.canceledWaiting {
          return Stopped;
        }
        attempt := attempt + 1;
      }
      if outcome == Failed {
        return;
      }
      if files[i].part.None? || !Passes(infos[i], files[i].part.value) {
        return Failed;
      }
      if env.renameFails {
        return Failed;
      }
      var f := files[i];
      files := files[i := FileState(None, f.part, !env.recordFails || f.verified)];
    }

    method DeletePartFiles()
      modifies this`files
      ensures files == WithoutParts(old(files))
    {
      for i := 0 to |files|
        invariant |files| == |old(files)|
        invariant forall j | 0 <= j < i :: files[j] == old(files)[j].(part := None)
        invariant forall j | i <= j < |files| :: files[j] == old(files)[j]
      {
        files := files[i := files[i].(part := None)];
      }
    }

    method RunWorker(envs: nat -> FileEnv, cancelIntended: bool)
      requires Valid()
      modifies this
      ensures Valid()
      ensures Job(files, registered) == Handle(infos, old(Job(files, registered)), Run(envs, cancelIntended))
    {
      hide DownloadFile;
      for i := 0 to |files|
        invariant Valid() && registered == old(registered)
        invariant RunFrom(infos, old(files), envs, 0) == RunFrom(infos, files, envs, i)
      {
        if files[i].verified {
          continue;
        }
        var outcome := DownloadAndVerifyFile(i, envs(i));
        if outcome == Stopped {
          if cancelIntended {
            DeletePartFiles();
          }
          return;
        }
        if outcome == Failed {
          return;
        }
      }
      registered := true;
    }
  }

  // ---- What servers do ----

  /** Range semantics of RFC 9110, sections 14.2 and 15.3.7: 206 carries the rest from the offset and is
      only possible inside the content; 200 carries everything. Any transfer may end early. */
  ghost predicate Conforms(remote: Bytes, from: nat, r: Reply)
  {
    r.Response? ==>
      && (r.status == PARTIAL_CONTENT ==>
            from < |remote| && r.body <= remote[from..] && (r.end == Complete ==> r.body == remote[from..]))
      && (r.status == OK_STATUS ==>
            r.body <= remote && (r.end == Complete ==> r.body == remote))
  }

  ghost predicate FileEnvConforms(remote: Bytes, env: FileEnv)
  {
    forall k, from: nat :: Conforms(remote, from, env.attempt(k).serve(from))
  }

  ghost predicate EventConforms(infos: seq<FileInfo>, e: Event)
  {
    e.Run? ==> forall i: nat | i < |infos| :: FileEnvConforms(infos[i].remote, e.envs(i))
  }

  // ---- Safety ----

  /** The part file is a prefix of the remote content, the final path is absent or complete, and a file
      marked verified is in place. */
  ghost predicate Good(info: FileInfo, f: FileState)
  {
    && (f.part.Some? ==> f.part.value <= info.remote)
    && (f.final.Some? ==> f.final.value == info.remote)
    && (f.verified ==> f.final.Some?)
  }

  ghost predicate AllGood(infos: seq<FileInfo>, files: seq<FileState>)
  {
    |infos| == |files| && forall i | 0 <= i < |files| :: Good(infos[i], files[i])
  }

  lemma AttemptKeepsPrefix(info: FileInfo, f: FileState, a: AttemptEnv)
    requires Good(info, f) && Conforms(info.remote, PartSize(f), a.serve(PartSize(f)))
    ensures var (f', outcome) := Attempt(f, a);
      Good(info, f') && f'.final == f.final && f'.verified == f.verified
      && (outcome == Done ==> f'.part == Some(info.remote))
  {
    var r := a.serve(PartSize(f));
    if r.Response? && r.status == PARTIAL_CONTENT && PartSize(f) > 0 {
      ResumeAppends(info.remote, f.part.value, r.body);
    }
  }

  /** Appending a piece of the rest to a prefix gives a longer prefix; appending all of it completes it. */
  lemma ResumeAppends(remote: Bytes, part: Bytes, body: Bytes)
    requires part <= remote && body <= remote[|part|..]
    ensures part + body <= remote
    ensures body == remote[|part|..] ==> part + body == remote
  {
  }

  lemma {:induction false} AttemptsKeepPrefix(info: FileInfo, f: FileState, env: FileEnv, k: nat)
    requires Good(info, f) && FileEnvConforms(info.remote, env)
    ensures var (f', outcome) := Attempts(f, env, k);
      Good(info, f') && f'.final == f.final && f'.verified == f.verified
      && (outcome == Done ==> f'.part == Some(info.remote))
    decreases MAX_ATTEMPTS - k
  {
    hide Attempt, Good;
    if k < MAX_ATTEMPTS && !env.attempt(k).canceledBefore {
      assert Conforms(info.remote, PartSize(f), env.attempt(k).serve(PartSize(f)));
      AttemptKeepsPrefix(info, f, env.attempt(k));
      var (f', outcome) := Attempt(f, env.attempt(k));
      AttemptsKeepPrefix(info, f', env, k + 1);
    }
  }

  lemma DownloadKeepsGood(info: FileInfo, f: FileState, env: FileEnv)
    requires Good(info, f) && FileEnvConforms(info.remote, env)
    ensures var (f', outcome) := DownloadFile(info, f, env);
      Good(info, f') && (outcome == Done ==> f'.final == Some(info.remote))
      && (f.final.Some? ==> f' == f)
  {
    hide Attempts;
    AttemptsKeepPrefix(info, f, env, 0);
  }

  lemma {:induction false} RunKeepsGood(infos: seq<FileInfo>, files: seq<FileState>, envs: nat -> FileEnv, i: nat)
    requires AllGood(infos, files) && EventConforms(infos, Run(envs, false))
    requires forall j | 0 <= j < i && j < |files| :: files[j].final.Some?
    ensures var (files', outcome) := RunFrom(infos, files, envs, i);
      && AllGood(infos, files')
      && (outcome == Done ==> forall j | 0 <= j < |files'| :: files'[j].final.Some?)
    decreases |files| - i
  {
    hide DownloadFile;
    if i < |files| {
      if files[i].verified {
        assert Good(infos[i], files[i]);
        RunKeepsGood(infos, files, envs, i + 1);
      } else {
        assert FileEnvConforms(infos[i].remote, envs(i));
        DownloadKeepsGood(infos[i], files[i], envs(i));
        var (f, outcome) := DownloadFile(infos[i], files[i], envs(i));
        if outcome == Done {
          RunKeepsGood(infos, files[i := f], envs, i + 1);
        }
      }
    }
  }

  ghost predicate Safe(infos: seq<FileInfo>, job: Job)
  {
    && AllGood(infos, job.files)
    && (job.registered ==> forall i | 0 <= i < |infos| :: job.files[i].final == Some(infos[i].remote))
  }

  /** Once a file is in place no later event touches it. */
  lemma {:induction false} RunKeepsFinal(infos: seq<FileInfo>, files: seq<FileState>, envs: nat -> FileEnv, i: nat,
                                         k: nat)
    requires |infos| == |files| && k < |files| && files[k].final.Some?
    ensures |RunFrom(infos, files, envs, i).0| == |files|
    ensures RunFrom(infos, files, envs, i).0[k].final == files[k].final
    decreases |files| - i
  {
    hide Attempts;
    if i < |files| {
      if files[i].verified {
        RunKeepsFinal(infos, files, envs, i + 1, k);
      } else {
        var (f, outcome) := DownloadFile(infos[i], files[i], envs(i));
        assert files[i := f][k].final == files[k].final;
        RunKeepsFinal(infos, files[i := f], envs, i + 1, k);
      }
    }
  }

  lemma HandleKeepsSafe(infos: seq<FileInfo>, job: Job, e: Event)
    requires Safe(infos, job) && EventConforms(infos, e)
    ensures Safe(infos, Handle(infos, job, e))
  {
    hide RunFrom;
    match e
    case CancelIdle =>
      assert AllGood(infos, WithoutParts(job.files));
    case Run(envs, cancelIntended) =>
      RunKeepsGood(infos, job.files, envs, 0);
      var (files, outcome) := RunFrom(infos, job.files, envs, 0);
      assert AllGood(infos, WithoutParts(files));
      if job.registered {
        forall k: nat | k < |infos|
          ensures files[k].final == Some(infos[k].remote)
        {
          RunKeepsFinal(infos, job.files, envs, 0, k);
        }
      }
  }

  /** Over any life of a job against conforming servers: parts stay prefixes, final paths hold complete
      content or nothing, and registration implies every file is in place. */
  lemma {:induction false} LifeIsSafe(infos: seq<FileInfo>, job: Job, events: seq<Event>)
    requires Safe(infos, job)
    requires forall e | e in events :: EventConforms(infos, e)
    ensures Safe(infos, Life(infos, job, events))
    decreases |events|
  {
    hide Handle, Safe, EventConforms;
    assert |infos| == |job.files| by { SafeLength(infos, job); }
    if events != [] {
      LifeIsSafe(infos, job, events[..|events| - 1]);
      HandleKeepsSafe(infos, Life(infos, job, events[..|events| - 1]), events[|events| - 1]);
    }
  }

  lemma SafeLength(infos: seq<FileInfo>, job: Job)
    requires Safe(infos, job)
    ensures |infos| == |job.files|
  {
  }

  // ---- Limits of the protocol ----

  /** A resumed transfer rebuilds the content exactly when the part file on disk is a prefix of it; a part
      left behind by other content is spliced onto the new one. */
  lemma SpliceIsCleanForPrefixes(remote: Bytes, f: FileState, a: AttemptEnv)
    requires 0 < PartSize(f) < |remote| && !a.openFails
    requires a.serve(PartSize(f)) == Response(PARTIAL_CONTENT, remote[PartSize(f)..], Complete)
    ensures Attempt(f, a).0.part == Some(remote) <==> f.part.value <= remote
  {
    var part := f.part.value;
    var whole := part + remote[|part|..];
    assert Attempt(f, a).0.part == Some(whole);
    if part <= remote {
      ResumeAppends(remote, part, remote[|part|..]);
    } else {
      assert whole[..|part|] == part;
    }
  }

  /** A part file that is already complete can only be finished by a server that ignores the range and
      sends everything again. */
  lemma CompletePartNeedsFullResend(remote: Bytes, f: FileState, a: AttemptEnv)
    requires f.part == Some(remote) && remote != []
    requires Conforms(remote, PartSize(f), a.serve(PartSize(f)))
    ensures Attempt(f, a).1 == Done <==>
      a.serve(|remote|) == Response(OK_STATUS, remote, Complete) && !a.openFails
  {
  }

  // ---- What a later run can finish ----

  const RANGE_NOT_SATISFIABLE: int := 416

  /** A server that answers in full: everything without a range, the rest inside the content, and 416 for
      an offset at its end or beyond. */
  function RangeReply(remote: Bytes, from: nat): Reply
  {
    if from == 0 then Response(OK_STATUS, remote, Complete)
    else if from < |remote| then Response(PARTIAL_CONTENT, remote[from..], Complete)
    else Response(RANGE_NOT_SATISFIABLE, [], Complete)
  }

  /** Such a server, and nothing else goes wrong. */
  ghost predicate FaultFree(remote: Bytes, env: FileEnv)
  {
    && !env.renameFails && !env.recordFails
    && (forall k: nat, from: nat :: env.attempt(k).serve(from) == RangeReply(remote, from))
    && forall k: nat :: Undisturbed(env.attempt(k))
  }

  predicate Undisturbed(a: AttemptEnv)
  {
    !a.canceledBefore && !a.openFails && !a.canceledWaiting
  }

  /** The part file with the rest of the content behind it. */
  function Resumed(remote: Bytes, f: FileState): Bytes
    requires PartSize(f) <= |remote|
  {
    (if f.part.Some? then f.part.value else []) + remote[PartSize(f)..]
  }

  /** Nothing is in place yet, the part file is empty or shorter than the content, and the content resumed
      from it passes the tests. */
  predicate CanFinish(info: FileInfo, f: FileState)
  {
    f.final.None? && (PartSize(f) == 0 || PartSize(f) < |info.remote|) && Passes(info, Resumed(info.remote, f))
  }

  lemma ReachesEnd(remote: Bytes, f: FileState, env: FileEnv)
    requires FaultFree(remote, env)
    ensures Attempts(f, env, 0) ==
      if PartSize(f) == 0 || PartSize(f) < |remote| then (f.(part := Some(Resumed(remote, f))), Done) else (f, Failed)
  {
    var a := env.attempt(0);
    assert a.serve(PartSize(f)) == RangeReply(remote, PartSize(f)) && Undisturbed(a);
    if PartSize(f) == 0 {
      assert Resumed(remote, f) == remote;
    } else if PartSize(f) >= |remote| {
      NoEnd(remote, f, env, 0);
    }
  }

  lemma {:induction false} NoEnd(remote: Bytes, f: FileState, env: FileEnv, k: nat)
    requires FaultFree(remote, env) && 0 < PartSize(f) && |remote| <= PartSize(f)
    ensures Attempts(f, env, k) == (f, Failed)
    decreases MAX_ATTEMPTS - k
  {
    if k < MAX_ATTEMPTS {
      assert env.attempt(k).serve(PartSize(f)) == RangeReply(remote, PartSize(f)) && Undisturbed(env.attempt(k));
      NoEnd(remote, f, env, k + 1);
    }
  }

  /** A run without any fault finishes exactly the files that can finish. */
  lemma FinishesExactly(info: FileInfo, f: FileState, env: FileEnv)
    requires FaultFree(info.remote, env)
    ensures var (f', outcome) := DownloadFile(info, f, env);
      && (outcome == Done <==> CanFinish(info, f))
      && outcome != Stopped
      && (outcome == Done ==> f' == FileState(None, Some(Resumed(info.remote, f)), true))
  {
    hide Attempts;
    ReachesEnd(info.remote, f, env);
  }

  /** What one such run does not finish, none will: it leaves a file in place or a part file of full length. */
  lemma UnfinishedStaysSo(info: FileInfo, f: FileState, env: FileEnv)
    requires FaultFree(info.remote, env)
    ensures var f' := DownloadFile(info, f, env).0;
      !CanFinish(info, f) ==> !CanFinish(info, f') && f'.final == f.final
  {
    hide Attempts, Passes, FaultFree;
    ReachesEnd(info.remote, f, env);
    if f.final.None? && (PartSize(f) == 0 || PartSize(f) < |info.remote|) {
      var f' := f.(part := Some(Resumed(info.remote, f)));
      assert |info.remote| == 0 ==> Resumed(info.remote, f) == info.remote;
      assert PartSize(f') == |info.remote|;
    }
  }

  /** A cancellation, which deletes the part file, lets exactly the files finish that are not in place and
      whose content passes the tests. */
  lemma CancelFreesPart(info: FileInfo, f: FileState)
    ensures CanFinish(info, f.(part := None)) <==> f.final.None? && Passes(info, info.remote)
  {
    assert Resumed(info.remote, f.(part := None)) == info.remote;
  }

  ghost predicate AllFaultFree(infos: seq<FileInfo>, envs: nat -> FileEnv)
  {
    forall i: nat | i < |infos| :: FaultFree(infos[i].remote, envs(i))
  }

  /** A run of the job without any fault registers it exactly when every file is marked verified or can
      finish. */
  lemma {:induction false} JobFinishesExactly(infos: seq<FileInfo>, files: seq<FileState>, envs: nat -> FileEnv, i: nat)
    requires |infos| == |files| && AllFaultFree(infos, envs)
    ensures RunFrom(infos, files, envs, i).1 != Stopped
    ensures RunFrom(infos, files, envs, i).1 == Done <==>
            forall j | i <= j < |files| :: files[j].verified || CanFinish(infos[j], files[j])
    decreases |files| - i
  {
    hide DownloadFile, FaultFree, CanFinish;
    if i < |files| {
      if files[i].verified {
        JobFinishesExactly(infos, files, envs, i + 1);
      } else {
        FinishesExactly(infos[i], files[i], envs(i));
        JobFinishesExactly(infos, files[i := DownloadFile(infos[i], files[i], envs(i)).0], envs, i + 1);
      }
    }
  }

  /** In place, but not marked: what a failed record after the rename leaves behind. */
  predicate Stranded(f: FileState)
  {
    f.final.Some? && !f.verified
  }

  lemma FailedRecordStrands(info: FileInfo, f: FileState, env: FileEnv)
    requires !f.verified && DownloadFile(info, f, env).1 == Done
    ensures Stranded(DownloadFile(info, f, env).0) <==> env.recordFails
  {
    hide Attempts;
    AttemptsKeepMark(f, env, 0);
  }

  lemma {:induction false} AttemptsKeepMark(f: FileState, env: FileEnv, k: nat)
    ensures Attempts(f, env, k).0.verified == f.verified
    decreases MAX_ATTEMPTS - k
  {
    if k < MAX_ATTEMPTS && !env.attempt(k).canceledBefore {
      AttemptsKeepMark(Attempt(f, env.attempt(k)).0, env, k + 1);
    }
  }

  lemma {:induction false} RunStopsAtStranded(infos: seq<FileInfo>, files: seq<FileState>, envs: nat -> FileEnv, i: nat,
                                              k: nat)
    requires |infos| == |files| && i <= k < |files| && Stranded(files[k])
    ensures |RunFrom(infos, files, envs, i).0| == |files|
    ensures RunFrom(infos, files, envs, i).1 != Done && Stranded(RunFrom(infos, files, envs, i).0[k])
    decreases |files| - i
  {
    hide Attempts;
    if i < k {
      if files[i].verified {
        RunStopsAtStranded(infos, files, envs, i + 1, k);
      } else {
        var f := DownloadFile(infos[i], files[i], envs(i)).0;
        assert files[i := f][k] == files[k];
        RunStopsAtStranded(infos, files[i := f], envs, i + 1, k);
      }
    }
  }

  /** A job with a stranded file is never registered, whatever runs and cancellations follow. */
  lemma {:induction false} StrandedForever(infos: seq<FileInfo>, job: Job, events: seq<Event>, k: nat)
    requires |infos| == |job.files| && k < |job.files| && Stranded(job.files[k]) && !job.registered
    ensures Stranded(Life(infos, job, events).files[k]) && !Life(infos, job, events).registered
    decreases |events|
  {
    if events != [] {
      hide RunFrom;
      var before := Life(infos, job, events[..|events| - 1]);
      StrandedForever(infos, job, events[..|events| - 1], k);
      match events[|events| - 1] {
        case CancelIdle =>
        case Run(envs, cancelIntended) => RunStopsAtStranded(infos, before.files, envs, 0, k);
      }
    }
  }
}
