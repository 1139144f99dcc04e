/** The agent's table of running jobs and what becomes of a job's output and exit status. */
module Execution {
  import opened Common
  import opened JobTable

  /** Process id by job; 0 until the process has been forked. */
  type Running = map<JobId, nat>

  function Entered(r: Running, job: JobId): Running {
    r[job := 0]
  }

  function WithPid(r: Running, job: JobId, pid: nat): Running {
    if job in r then r[job := pid] else r
  }

  function Removed(r: Running, job: JobId): Running {
    r - {job}
  }

  /** What `waitpid` reports. */
  datatype WaitStatus = Exited(code: nat) | Signaled(signal: nat) | Neither

  datatype JobResult = JobResult(exitCode: int, success: bool)

  /** Passed to the completion callback when the pipe or the fork fails. */
  const NEVER_STARTED := JobResult(-1, false)

  function ResultOf(w: WaitStatus): JobResult {
    match w
    case Exited(code) => JobResult(code, code == 0)
    case Signaled(signal) => JobResult(128 + signal, false)
    case Neither => JobResult(-1, false)
  }

  /** The report the completion callback sends to the master. */
  function Reported(r: JobResult): JobStatus {
    if r.success || r.exitCode != -1 then Completed else Failed
  }

  /** A job that got as far as running is reported as completed whatever its exit code and even when it was
      killed; failure is reported exactly when it never started or the wait told nothing. */
  lemma FailureMeansNoExit(w: WaitStatus)
    ensures Reported(ResultOf(w)) == Failed <==> w.Neither?
    ensures Reported(ResultOf(w)) != Failed ==> Reported(ResultOf(w)) == Completed
    ensures Reported(NEVER_STARTED) == Failed
  {
  }

  /** Success means exit code 0. The code reported is the process's own, or 128 more than the signal, so that
      it tells how the process ended as long as processes keep to codes up to 128. */
  lemma ExitCodeTellsTheEnd(w: WaitStatus, v: WaitStatus)
    ensures ResultOf(w).success <==> w == Exited(0)
    ensures w.Exited? ==> ResultOf(w).exitCode == w.code
    ensures ResultOf(Signaled(15)).exitCode == 143
    ensures Conventional(w) && Conventional(v) && ResultOf(w) == ResultOf(v) ==> w == v
  {
  }

  predicate Conventional(w: WaitStatus) {
    (w.Exited? ==> w.code <= 128) && (w.Signaled? ==> w.signal > 0)
  }

  class JobExecutor {
    var running: Running

    constructor ()
      ensures running == map[]
    {
      running := map[];
    }

    /** Spawns the job's thread and enters it, all while holding the mutex. */
    method ExecuteAsync(job: JobId) returns (launched: bool)
      modifies this
      ensures launched == (job !in old(running))
      ensures running == if launched then Entered(old(running), job) else old(running)
    {
      if job in running {
        return false;
      }
      running := running[job := 0];
      return true;
    }

    /** The process that is signalled: that of the job's entry, once it has one. */
    method CancelRunning(job: JobId) returns (killed: Option<nat>)
      ensures killed.None? <==> (forall pid: nat :: pid > 0 ==> (job, pid) !in running.Items)
      ensures killed.Some? ==> killed.value > 0 && (job, killed.value) in running.Items
    {
      killed := None;
      if job in running && running[job] > 0 {
        killed := Some(running[job]);
        assert (job, running[job]) in running.Items;
      }
    }

    /** First lock section of the thread. */
    method RegisterPid(job: JobId, pid: nat)
      modifies this
      ensures running == WithPid(old(running), job, pid)
    {
      if job in running {
        running := running[job := pid];
      }
    }

    /** Last lock section of the thread. */
    method Forget(job: JobId)
      modifies this
      ensures running == Removed(old(running), job)
    {
      if job in running {
        running := running - {job};
      }
      assert running == Removed(old(running), job);
    }

    method GetRunningCount() returns (count: nat)
      ensures count == |running|
    {
      count := |running|;
    }
  }

  // ---- Output -------------------------------------------------------------------------------------

  /** A buffer read back as a C string ends at its first NUL. */
  function CString(buffer: string): (s: string)
    ensures s <= buffer && '\0' !in s
    ensures s != buffer ==> buffer[|s|] == '\0'
  {
    if buffer == "" || buffer[0] == '\0' then "" else [buffer[0]] + CString(buffer[1..])
  }

  ghost function Concat(buffers: seq<string>): string {
    if buffers == [] then "" else Concat(buffers[..|buffers| - 1]) + buffers[|buffers| - 1]
  }

  ghost function Kept(buffers: seq<string>): string {
    if buffers == [] then "" else Kept(buffers[..|buffers| - 1]) + CString(buffers[|buffers| - 1])
  }

  /** Output is kept in the order in which it was read, and of each read what comes before its first NUL. */
  lemma {:induction false} KeptInOrder(a: seq<string>, b: seq<string>)
    ensures Kept(a + b) == Kept(a) + Kept(b)
    decreases |b|
  {
    if b == [] {
      assert a + b == a;
    } else {
      var front, last := b[..|b| - 1], b[|b| - 1];
      KeptInOrder(a, front);
      KeptOneMore(front, last);
      KeptOneMore(a + front, last);
      LastApart(a, b);
      Associate(Kept(a), Kept(front), CString(last));
    }
  }

  lemma LastApart<T>(a: seq<T>, b: seq<T>)
    requires b != []
    ensures b == b[..|b| - 1] + [b[|b| - 1]]
    ensures a + b == (a + b[..|b| - 1]) + [b[|b| - 1]]
  {
  }

  lemma Associate(x: string, y: string, z: string)
    ensures (x + y) + z == x + (y + z)
  {
  }

  lemma KeptOneMore(buffers: seq<string>, buffer: string)
    ensures Kept(buffers + [buffer]) == Kept(buffers) + CString(buffer)
  {
    assert (buffers + [buffer])[..|buffers|] == buffers;
  }

  lemma KeptOfOne(front: string, back: string)
    requires '\0' !in front
    ensures Kept([front]) == front && Kept([front + "\0" + back]) == front
  {
    KeptOneMore([], front);
    KeptOneMore([], front + "\0" + back);
    assert [] + [front] == [front] && [] + [front + "\0" + back] == [front + "\0" + back];
    CutAtNul(front, back);
  }

  lemma CutAtNul(front: string, back: string)
    requires '\0' !in front
    ensures CString(front) == front && CString(front + "\0" + back) == front
  {
    var whole := front + "\0" + back;
    var s := CString(whole);
    assert whole[|front|] == '\0';
    assert forall k :: 0 <= k < |front| ==> whole[k] == front[k] && front[k] in front;
    assert forall k :: 0 <= k < |s| ==> whole[k] == s[k] && s[k] in s;
  }

  /** The job's output is kept whole exactly when no read returned a NUL byte. */
  lemma {:induction false} OutputWholeIffNoNul(buffers: seq<string>)
    ensures |Kept(buffers)| <= |Concat(buffers)|
    ensures Kept(buffers) == Concat(buffers) <==> |Kept(buffers)| == |Concat(buffers)|
    ensures Kept(buffers) == Concat(buffers) <==> forall k :: 0 <= k < |buffers| ==> '\0' !in buffers[k]
  {
    if buffers != [] {
      var n := |buffers| - 1;
      OutputWholeIffNoNul(buffers[..n]);
      assert forall k :: 0 <= k < n ==> buffers[..n][k] == buffers[k];
    }
  }

  /** The read loop of the execution thread, over the successive contents of its buffer. */
  method CollectOutput(buffers: seq<string>) returns (output: string)
    ensures output == Kept(buffers)
  {
    output := "";
    for k := 0 to |buffers|
      invariant output == Kept(buffers[..k])
    {
      var chunk := CString(buffers[k]);
      assert buffers[..k + 1][..k] == buffers[..k];
      output := output + chunk;
    }
    assert buffers[..|buffers|] == buffers;
  }
}
