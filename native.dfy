/** The client's direct-handle path: opening a pipe with kernel32's CreateFile
    and polling WaitNamedPipe until the pipe is available. */
module Native {
  import opened Platform

  // ---------------------------------------------------------------------------
  // EFileAccess
  // ---------------------------------------------------------------------------

  const Delete: bv32 := 0x10000
  const ReadControl: bv32 := 0x20000
  const WriteDAC: bv32 := 0x40000
  const WriteOwner: bv32 := 0x80000
  const Synchronize: bv32 := 0x100000

  const StandardRightsRequired: bv32 := 0xF0000
  const StandardRightsRead: bv32 := ReadControl
  const StandardRightsWrite: bv32 := ReadControl
  const StandardRightsExecute: bv32 := ReadControl
  const StandardRightsAll: bv32 := 0x1F0000
  const SpecificRightsAll: bv32 := 0xFFFF

  const FILE_READ_DATA: bv32 := 0x0001
  const FILE_LIST_DIRECTORY: bv32 := 0x0001
  const FILE_WRITE_DATA: bv32 := 0x0002
  const FILE_ADD_FILE: bv32 := 0x0002
  const FILE_APPEND_DATA: bv32 := 0x0004
  const FILE_ADD_SUBDIRECTORY: bv32 := 0x0004
  const FILE_CREATE_PIPE_INSTANCE: bv32 := 0x0004
  const FILE_READ_EA: bv32 := 0x0008
  const FILE_WRITE_EA: bv32 := 0x0010
  const FILE_EXECUTE: bv32 := 0x0020
  const FILE_TRAVERSE: bv32 := 0x0020
  const FILE_DELETE_CHILD: bv32 := 0x0040
  const FILE_READ_ATTRIBUTES: bv32 := 0x0080
  const FILE_WRITE_ATTRIBUTES: bv32 := 0x0100

  const FILE_GENERIC_READ: bv32 :=
    StandardRightsRead | FILE_READ_DATA | FILE_READ_ATTRIBUTES | FILE_READ_EA
  const FILE_GENERIC_WRITE: bv32 :=
    StandardRightsWrite | FILE_WRITE_DATA | FILE_WRITE_ATTRIBUTES | FILE_WRITE_EA | FILE_APPEND_DATA

  /** The bits that let a handle read, and those that let it write. */
  const ReadBits: bv32 := FILE_READ_DATA | FILE_READ_ATTRIBUTES | FILE_READ_EA
  const WriteBits: bv32 := FILE_WRITE_DATA | FILE_WRITE_ATTRIBUTES | FILE_WRITE_EA | FILE_APPEND_DATA

  /** The two generic masks as numbers; they share only ReadControl. */
  lemma GenericMaskValues()
    ensures FILE_GENERIC_READ == 0x20089
    ensures FILE_GENERIC_WRITE == 0x20116
    ensures FILE_GENERIC_READ & FILE_GENERIC_WRITE == ReadControl
  {
  }

  // ---------------------------------------------------------------------------
  // CreateFile and Open
  // ---------------------------------------------------------------------------

  /** The other CreateFile arguments the client passes: EFileShare.None,
      ECreationDisposition.OpenExisting, EFileAttributes.Overlapped | SequentialScan. */
  const ShareNone: bv32 := 0x0000_0000
  const OpenExisting: bv32 := 3
  const Overlapped: bv32 := 0x4000_0000
  const SequentialScan: bv32 := 0x0800_0000

  /** The arguments of one kernel32 CreateFile call. */
  datatype CreateFileRequest = CreateFileRequest(
    fileName: string, desiredAccess: bv32, shareMode: bv32,
    creationDisposition: bv32, flagsAndAttributes: bv32)

  /** What CreateFile hands back: the raw handle value and the last-error code. */
  datatype CreateFileReply = CreateFileReply(handle: int, lastError: int)

  /** The operating system's answer to every CreateFile request. */
  type FileSystem = CreateFileRequest -> CreateFileReply

  /** SafeFileHandle.IsInvalid: the handle value is 0 or -1. */
  predicate IsInvalid(handle: int) {
    handle == 0 || handle == -1
  }

  /** The access mask the client requests for a direction (`fileAccess` in
      CreateFile). A reading end asks for no write bit, a writing end for no read
      bit; a bidirectional request falls through the switch with mask 0. */
  function DesiredAccess(direction: PipeDirection): (mask: bv32)
    ensures direction == In ==> mask & FILE_READ_DATA != 0 && mask & WriteBits == 0
    ensures direction == Out ==> mask & FILE_WRITE_DATA != 0 && mask & ReadBits == 0
    ensures direction != InOut ==> mask & ReadControl != 0
    ensures direction == InOut ==> mask == 0
    ensures direction == In ==> mask == 0x20089
    ensures direction == Out ==> mask == 0x20116
  {
    match direction
    case In => FILE_GENERIC_READ
    case Out => FILE_GENERIC_WRITE
    case InOut => 0
  }

  /** The CreateFile request the client issues for a pipe and direction. */
  function OpenRequest(pipeName: string, direction: PipeDirection): CreateFileRequest {
    CreateFileRequest(pipeName, DesiredAccess(direction), ShareNone, OpenExisting, Overlapped | SequentialScan)
  }

  /** CreateFile(string, PipeDirection): an invalid handle is never returned;
      it becomes a Win32Exception with the last-error code. */
  function CreateFile(pipeName: string, direction: PipeDirection, fs: FileSystem): (r: Result<int>)
    ensures r.Ok? ==> !IsInvalid(r.value) && r.value == fs(OpenRequest(pipeName, direction)).handle
    ensures r.Err? ==> IsInvalid(fs(OpenRequest(pipeName, direction)).handle)
                       && r.error == Win32(fs(OpenRequest(pipeName, direction)).lastError)
  {
    var reply := fs(OpenRequest(pipeName, direction));
    if IsInvalid(reply.handle) then Err(Win32(reply.lastError)) else Ok(reply.handle)
  }

  /** A FileStream over a pipe handle. */
  datatype FileStream = FileStream(handle: int, access: FileAccess, bufferSize: int, isAsync: bool)

  /** new FileStream(handle, access, bufferSize, true): an asynchronous stream
      over the handle; a negative buffer size throws ArgumentOutOfRangeException. */
  function NewFileStream(handle: int, access: FileAccess, bufferSize: int): (r: Result<FileStream>)
    ensures r.Err? <==> bufferSize < 0
    ensures r.Err? ==> r.error == ArgumentOutOfRange
    ensures r.Ok? ==> r.value == FileStream(handle, access, bufferSize, true)
  {
    if bufferSize < 0 then Err(ArgumentOutOfRange) else Ok(FileStream(handle, access, bufferSize, true))
  }

  /** Native.Open: a read stream for In, a write stream for Out, both
      asynchronous with the given buffer size; anything else is refused. The
      handle is created first; the FileStream constructor then refuses a
      negative buffer size. */
  function Open(pipeName: string, direction: PipeDirection, bufferSize: int, fs: FileSystem): (r: Result<FileStream>)
    ensures direction == InOut ==> r == Err(Argument)
    ensures r.Ok? ==> && direction != InOut
                      && (r.value.access == ReadAccess <==> direction == In)
                      && r.value.bufferSize == bufferSize && r.value.isAsync
                      && !IsInvalid(r.value.handle)
    ensures direction != InOut ==>
              (r.Ok? <==> !IsInvalid(fs(OpenRequest(pipeName, direction)).handle) && bufferSize >= 0)
    ensures r.Ok? ==> r.value.handle == fs(OpenRequest(pipeName, direction)).handle
    ensures direction != InOut && r.Err? ==>
              if IsInvalid(fs(OpenRequest(pipeName, direction)).handle)
              then r.error == Win32(fs(OpenRequest(pipeName, direction)).lastError)
              else r.error == ArgumentOutOfRange
  {
    match direction
    case In =>
      (match CreateFile(pipeName, direction, fs)
       case Ok(handle) => NewFileStream(handle, ReadAccess, bufferSize)
       case Err(e) => Err(e))
    case Out =>
      (match CreateFile(pipeName, direction, fs)
       case Ok(handle) => NewFileStream(handle, WriteAccess, bufferSize)
       case Err(e) => Err(e))
    case InOut => Err(Argument)
  }

  /** The stream's access agrees with the mask its handle was opened with: a
      read stream's handle can read and not write, a write stream's the reverse. */
  lemma OpenAccessMatchesMask(pipeName: string, direction: PipeDirection, bufferSize: int, fs: FileSystem)
    ensures var r := Open(pipeName, direction, bufferSize, fs);
            var mask := OpenRequest(pipeName, direction).desiredAccess;
            r.Ok? ==>
              if r.value.access == ReadAccess
              then mask & FILE_READ_DATA != 0 && mask & WriteBits == 0
              else mask & FILE_WRITE_DATA != 0 && mask & ReadBits == 0
  {
  }

  /** Open looks at the operating system only through the one request it
      issues; for a bidirectional pipe it issues none, so no handle is created. */
  lemma OpenConsultsOnlyItsRequest(pipeName: string, direction: PipeDirection, bufferSize: int, fs1: FileSystem, fs2: FileSystem)
    requires direction != InOut ==> fs1(OpenRequest(pipeName, direction)) == fs2(OpenRequest(pipeName, direction))
    ensures Open(pipeName, direction, bufferSize, fs1) == Open(pipeName, direction, bufferSize, fs2)
  {
  }

  // ---------------------------------------------------------------------------
  // WaitNamedPipeAsync
  // ---------------------------------------------------------------------------

  const ERROR_FILE_NOT_FOUND: int := 2
  const ERROR_SEM_TIMEOUT: int := 121
  /** The timeout of each WaitNamedPipe call, in milliseconds. */
  const PIPE_WAIT_DELAY: nat := 125

  /** What one WaitNamedPipe call reports. */
  datatype WaitResult = Available | Failed(lastError: int)

  /** What the environment does in one iteration of the loop: whether the
      token is cancelled at the loop check, what WaitNamedPipe returns, and
      whether the token is cancelled while the back-off delay runs. */
  datatype Round = Round(cancelledAtCheck: bool, wait: WaitResult, cancelledInDelay: bool)

  /** One recorded step of the poller: an OS wait with its timeout, or a
      requested back-off delay; both in milliseconds. */
  datatype PollStep = Attempt(timeoutMs: nat, result: WaitResult) | Delay(ms: nat)

  /** How the poller ends: the pipe is available, the token was cancelled,
      a non-transient error was thrown, or the environment's script ran out
      while it was still polling. */
  datatype PollOutcome = Ready | Cancelled | Fatal(code: int) | StillWaiting

  datatype PollRun = PollRun(outcome: PollOutcome, trace: seq<PollStep>)

  /** The back-off tier for a last-error code: 4 x 125 ms when the pipe does
      not exist yet, 2 x 125 ms when the wait timed out, none (fatal) otherwise. */
  function Backoff(lastError: int): Option<nat> {
    if lastError == ERROR_FILE_NOT_FOUND then Some(4 * PIPE_WAIT_DELAY)
    else if lastError == ERROR_SEM_TIMEOUT then Some(2 * PIPE_WAIT_DELAY)
    else None
  }

  /** The run of the poller against a script of rounds, one round per iteration. */
  function Poll(rounds: seq<Round>): PollRun {
    if rounds == [] then PollRun(StillWaiting, [])
    else if rounds[0].cancelledAtCheck then PollRun(Cancelled, [])
    else
      var attempt := Attempt(PIPE_WAIT_DELAY, rounds[0].wait);
      match rounds[0].wait
      case Available => PollRun(Ready, [attempt])
      case Failed(code) =>
        match Backoff(code)
        case None => PollRun(Fatal(code), [attempt])
        case Some(ms) =>
          if rounds[0].cancelledInDelay then PollRun(Cancelled, [attempt, Delay(ms)])
          else
            var rest := Poll(rounds[1..]);
            PollRun(rest.outcome, [attempt, Delay(ms)] + rest.trace)
  }

  /** A run whose steps so far are `done`, continued by `rest`. */
  function Continue(done: seq<PollStep>, rest: PollRun): PollRun {
    PollRun(rest.outcome, done + rest.trace)
  }

  /** One retried round: an attempt that failed transiently and a back-off
      delay that was not cancelled, followed by the run of the later rounds. */
  lemma PollUnfoldsRetry(rounds: seq<Round>, ms: nat)
    requires rounds != [] && !rounds[0].cancelledAtCheck && rounds[0].wait.Failed?
    requires Backoff(rounds[0].wait.lastError) == Some(ms) && !rounds[0].cancelledInDelay
    ensures Poll(rounds) == Continue([Attempt(PIPE_WAIT_DELAY, rounds[0].wait), Delay(ms)], Poll(rounds[1..]))
  {
  }

  /** Continuing twice is continuing once with both step lists. */
  lemma ContinueTwice(done: seq<PollStep>, more: seq<PollStep>, rest: PollRun)
    ensures Continue(done, Continue(more, rest)) == Continue(done + more, rest)
  {
    assert done + (more + rest.trace) == (done + more) + rest.trace;
  }

  /** WaitNamedPipeAsync: the `while (!IsCancellationRequested)` loop. */
  method WaitNamedPipeAsync(rounds: seq<Round>) returns (run: PollRun)
    ensures run == Poll(rounds)
  {
    var trace: seq<PollStep> := [];
    var k := 0;
    while k < |rounds| && !rounds[k].cancelledAtCheck
      invariant 0 <= k <= |rounds|
      invariant Poll(rounds) == Continue(trace, Poll(rounds[k..]))
      decreases |rounds| - k
    {
      var round := rounds[k];
      var attempt := Attempt(PIPE_WAIT_DELAY, round.wait);
      if round.wait.Available? {
        assert Poll(rounds[k..]) == PollRun(Ready, [attempt]);
        return PollRun(Ready, trace + [attempt]);
      }
      var lastError := round.wait.lastError;
      var delay: nat;
      if lastError == ERROR_FILE_NOT_FOUND {
        delay := 4 * PIPE_WAIT_DELAY;
      } else if lastError == ERROR_SEM_TIMEOUT {
        delay := 2 * PIPE_WAIT_DELAY;
      } else {
        assert Poll(rounds[k..]) == PollRun(Fatal(lastError), [attempt]);
        return PollRun(Fatal(lastError), trace + [attempt]);
      }
      if round.cancelledInDelay {
        assert Poll(rounds[k..]) == PollRun(Cancelled, [attempt, Delay(delay)]);
        return PollRun(Cancelled, trace + [attempt, Delay(delay)]);
      }
      PollUnfoldsRetry(rounds[k..], delay);
      assert rounds[k..][1..] == rounds[k + 1..];
      ContinueTwice(trace, [attempt, Delay(delay)], Poll(rounds[k + 1..]));
      trace := trace + [attempt, Delay(delay)];
      k := k + 1;
    }
    if k < |rounds| {
      run := PollRun(Cancelled, trace);
    } else {
      run := PollRun(StillWaiting, trace);
    }
  }

  // ---------------------------------------------------------------------------
  // Properties of the poller
  // ---------------------------------------------------------------------------

  /** Cancellation already requested at loop entry: no OS wait at all. */
  lemma PollCancelledAtEntry(rounds: seq<Round>)
    requires rounds != [] && rounds[0].cancelledAtCheck
    ensures Poll(rounds) == PollRun(Cancelled, [])
  {
  }

  /** A first attempt that succeeds returns at once, with no delay. */
  lemma PollImmediateSuccess(rounds: seq<Round>)
    requires rounds != [] && !rounds[0].cancelledAtCheck && rounds[0].wait == Available
    ensures Poll(rounds) == PollRun(Ready, [Attempt(PIPE_WAIT_DELAY, Available)])
  {
  }

  /** A first attempt that fails with any code but the two transient ones
      fails with that code, with no delay and no second attempt. */
  lemma PollFatalFirstAttempt(rounds: seq<Round>, code: int)
    requires rounds != [] && !rounds[0].cancelledAtCheck && rounds[0].wait == Failed(code)
    requires code != ERROR_FILE_NOT_FOUND && code != ERROR_SEM_TIMEOUT
    ensures Poll(rounds) == PollRun(Fatal(code), [Attempt(PIPE_WAIT_DELAY, Failed(code))])
  {
  }

  /** Cancellation during a back-off delay ends the poll after that delay's
      request, with no further attempt. */
  lemma PollCancelledInDelay(rounds: seq<Round>, code: int)
    requires rounds != [] && !rounds[0].cancelledAtCheck && rounds[0].wait == Failed(code)
    requires code == ERROR_FILE_NOT_FOUND || code == ERROR_SEM_TIMEOUT
    requires rounds[0].cancelledInDelay
    ensures Poll(rounds).outcome == Cancelled
    ensures Poll(rounds).trace == [Attempt(PIPE_WAIT_DELAY, Failed(code)), Delay(Backoff(code).value)]
  {
  }

  /** The sum of the requested delays of a trace. */
  function TotalDelay(trace: seq<PollStep>): nat {
    if trace == [] then 0
    else (if trace[0].Delay? then trace[0].ms else 0) + TotalDelay(trace[1..])
  }

  /** The number of attempts of a trace that failed with the given code. */
  function FailureCount(trace: seq<PollStep>, code: int): nat {
    if trace == [] then 0
    else (if trace[0].Attempt? && trace[0].result == Failed(code) then 1 else 0) + FailureCount(trace[1..], code)
  }

  /** The poller waits 500 ms per "not found" and 250 ms per "timed out"
      failure, and for nothing else. */
  lemma {:induction false} PollTotalDelay(rounds: seq<Round>)
    ensures var trace := Poll(rounds).trace;
            TotalDelay(trace) == 4 * PIPE_WAIT_DELAY * FailureCount(trace, ERROR_FILE_NOT_FOUND)
                               + 2 * PIPE_WAIT_DELAY * FailureCount(trace, ERROR_SEM_TIMEOUT)
  {
    if rounds != [] && !rounds[0].cancelledAtCheck && rounds[0].wait.Failed?
       && Backoff(rounds[0].wait.lastError).Some? {
      var code := rounds[0].wait.lastError;
      var rest := if rounds[0].cancelledInDelay then [] else Poll(rounds[1..]).trace;
      if !rounds[0].cancelledInDelay {
        PollTotalDelay(rounds[1..]);
      }
      assert Poll(rounds).trace == [Attempt(PIPE_WAIT_DELAY, Failed(code)), Delay(Backoff(code).value)] + rest;
      RetryCounts(code, Backoff(code).value, rest);
    }
  }

  /** A failed attempt and its delay add the delay to the total and count one
      failure of that code. */
  lemma RetryCounts(code: int, ms: nat, rest: seq<PollStep>)
    ensures var trace := [Attempt(PIPE_WAIT_DELAY, Failed(code)), Delay(ms)] + rest;
            && TotalDelay(trace) == ms + TotalDelay(rest)
            && FailureCount(trace, ERROR_FILE_NOT_FOUND) ==
                 (if code == ERROR_FILE_NOT_FOUND then 1 else 0) + FailureCount(rest, ERROR_FILE_NOT_FOUND)
            && FailureCount(trace, ERROR_SEM_TIMEOUT) ==
                 (if code == ERROR_SEM_TIMEOUT then 1 else 0) + FailureCount(rest, ERROR_SEM_TIMEOUT)
  {
    var trace := [Attempt(PIPE_WAIT_DELAY, Failed(code)), Delay(ms)] + rest;
    assert trace[1..] == [Delay(ms)] + rest;
    assert ([Delay(ms)] + rest)[1..] == rest;
  }

  /** The shape of every trace: attempts and delays alternate, starting with an
      attempt, so no attempt follows another without a delay in between; every
      attempt waits PIPE_WAIT_DELAY; every delay is the tier of the error the
      attempt before it reported. */
  ghost predicate NoBusySpin(trace: seq<PollStep>) {
    && (forall i :: 0 <= i < |trace| ==> (trace[i].Attempt? <==> i % 2 == 0))
    && (forall i :: 0 <= i < |trace| && trace[i].Attempt? ==> trace[i].timeoutMs == PIPE_WAIT_DELAY)
    && (forall i :: 0 < i < |trace| && trace[i].Delay? ==>
          && trace[i - 1].Attempt? && trace[i - 1].result.Failed?
          && Backoff(trace[i - 1].result.lastError) == Some(trace[i].ms))
  }

  lemma {:induction false} PollNeverBusySpins(rounds: seq<Round>)
    ensures NoBusySpin(Poll(rounds).trace)
  {
    if rounds != [] && !rounds[0].cancelledAtCheck && rounds[0].wait.Failed?
       && Backoff(rounds[0].wait.lastError).Some? && !rounds[0].cancelledInDelay {
      PollNeverBusySpins(rounds[1..]);
      var code := rounds[0].wait.lastError;
      NoBusySpinAfterRetry(code, Backoff(code).value, Poll(rounds[1..]).trace);
    }
  }

  /** A failed attempt and its back-off delay in front of a well-shaped trace
      keep it well shaped. */
  lemma NoBusySpinAfterRetry(code: int, ms: nat, rest: seq<PollStep>)
    requires Backoff(code) == Some(ms) && NoBusySpin(rest)
    ensures NoBusySpin([Attempt(PIPE_WAIT_DELAY, Failed(code)), Delay(ms)] + rest)
  {
    var trace := [Attempt(PIPE_WAIT_DELAY, Failed(code)), Delay(ms)] + rest;
    forall i | 2 <= i < |trace|
      ensures trace[i] == rest[i - 2] && (i % 2 == 0 <==> (i - 2) % 2 == 0)
    {
    }
  }

  /** Only the last attempt of a run can end it: every earlier attempt failed
      with one of the two transient codes. So the poller makes no attempt after
      a success or a non-transient error. */
  ghost predicate OnlyLastAttemptIsFinal(trace: seq<PollStep>) {
    forall i :: 0 <= i < |trace| - 1 && trace[i].Attempt? ==>
      trace[i].result.Failed? && Backoff(trace[i].result.lastError).Some?
  }

  lemma {:induction false} PollOnlyLastAttemptIsFinal(rounds: seq<Round>)
    ensures OnlyLastAttemptIsFinal(Poll(rounds).trace)
  {
    if rounds != [] && !rounds[0].cancelledAtCheck && rounds[0].wait.Failed?
       && Backoff(rounds[0].wait.lastError).Some? && !rounds[0].cancelledInDelay {
      var rest := Poll(rounds[1..]).trace;
      PollOnlyLastAttemptIsFinal(rounds[1..]);
      var trace := Poll(rounds).trace;
      var a := Attempt(PIPE_WAIT_DELAY, rounds[0].wait);
      assert trace == [a, Delay(Backoff(rounds[0].wait.lastError).value)] + rest;
      forall i | 0 <= i < |trace| - 1 && trace[i].Attempt?
        ensures trace[i].result.Failed? && Backoff(trace[i].result.lastError).Some?
      {
        if i >= 2 {
          assert trace[i] == rest[i - 2];
        }
      }
      assert forall i :: 2 <= i < |trace| ==> trace[i] == rest[i - 2];
    }
  }

  /** The outcome agrees with the last step: Ready after a successful attempt,
      Fatal(code) after an attempt that failed with that non-transient code,
      Cancelled or StillWaiting before any attempt or after a delay. The poller
      makes at most one attempt per round of the script. */
  lemma {:induction false} PollOutcomeMatchesLastStep(rounds: seq<Round>)
    ensures var run := Poll(rounds);
            && |run.trace| <= 2 * |rounds|
            && (run.outcome == Ready ==>
                  run.trace != [] && run.trace[|run.trace| - 1] == Attempt(PIPE_WAIT_DELAY, Available))
            && (run.outcome.Fatal? ==>
                  && run.trace != [] && run.trace[|run.trace| - 1] == Attempt(PIPE_WAIT_DELAY, Failed(run.outcome.code))
                  && Backoff(run.outcome.code).None?)
            && (run.outcome == Cancelled || run.outcome == StillWaiting ==>
                  run.trace == [] || run.trace[|run.trace| - 1].Delay?)
  {
    if rounds != [] && !rounds[0].cancelledAtCheck && rounds[0].wait.Failed?
       && Backoff(rounds[0].wait.lastError).Some? && !rounds[0].cancelledInDelay {
      PollOutcomeMatchesLastStep(rounds[1..]);
    }
  }

  /** Scenario: n failed attempts with one transient code, then a success.
      The poller is Ready after n + 1 attempts, having waited n back-off
      periods of that code's tier. */
  lemma {:induction false} PollRetriesThenReady(rounds: seq<Round>, n: nat, code: int)
    requires code == ERROR_FILE_NOT_FOUND || code == ERROR_SEM_TIMEOUT
    requires n < |rounds|
    requires forall i :: 0 <= i < n ==> rounds[i] == Round(false, Failed(code), false)
    requires !rounds[n].cancelledAtCheck && rounds[n].wait == Available
    ensures Poll(rounds).outcome == Ready
    ensures |Poll(rounds).trace| == 2 * n + 1
    ensures TotalDelay(Poll(rounds).trace) == n * Backoff(code).value
  {
    if n > 0 {
      var tail := rounds[1..];
      assert forall i :: 0 <= i < n - 1 ==> tail[i] == rounds[i + 1];
      PollRetriesThenReady(tail, n - 1, code);
      var rest := Poll(tail).trace;
      var a := Attempt(PIPE_WAIT_DELAY, Failed(code));
      var d := Delay(Backoff(code).value);
      assert Poll(rounds).trace == [a, d] + rest;
      assert ([a, d] + rest)[1..] == [d] + rest;
      assert ([d] + rest)[1..] == rest;
    }
  }
}
