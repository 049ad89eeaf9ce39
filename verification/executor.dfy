/** `run_cmd`: launch an external command up to three times. A launch
    that raises gives up at once; a non-zero exit is reported, followed by
    a one-second pause, and retried; exit 0 succeeds. The processes are an
    oracle: `script(k)` is what the k-th launch of the whole run does. */
module Executor {

  const MaxRetries: nat := 3

  /** What one launch does: exit with a status, or raise before a status
      exists (a missing executable, say). */
  datatype Outcome = Exited(code: int) | Raised

  /** The outcome of every launch, numbered from the start of the run. */
  type Script = nat -> Outcome

  /** The answer of `run_cmd`, the number of launches it made and the
      number of one-second pauses it took. */
  datatype RunResult = RunResult(ok: bool, attempts: nat, sleeps: nat)

  predicate FailedAt(script: Script, k: nat) {
    script(k).Exited? && script(k).code != 0
  }

  /** Attempts `i`, `i + 1`, ... of the call whose first launch is `start`. */
  function RunFrom(script: Script, start: nat, i: nat): (r: RunResult)
    requires i <= MaxRetries
    ensures i < r.attempts <= MaxRetries || (i == MaxRetries && r.attempts == i)
    decreases MaxRetries - i
  {
    if i == MaxRetries then RunResult(false, i, i)
    else match script(start + i)
      case Raised => RunResult(false, i + 1, i)
      case Exited(c) => if c == 0 then RunResult(true, i + 1, i) else RunFrom(script, start, i + 1)
  }

  /** `run_cmd(cmd)` for a call whose first launch is number `start`. */
  function Run(script: Script, start: nat): RunResult {
    RunFrom(script, start, 0)
  }

  /** The attempts made: one to three, every one before the last exited
      non-zero, and the last one decides. Success means the last exited 0;
      failure means it raised or all three exited non-zero. A pause follows
      each non-zero exit and nothing else. */
  lemma {:induction false} RunFromSpec(script: Script, start: nat, i: nat)
    requires i < MaxRetries
    requires forall k :: start <= k < start + i ==> FailedAt(script, k)
    ensures var r := RunFrom(script, start, i);
      && 1 <= r.attempts <= MaxRetries
      && (forall k :: start <= k < start + r.attempts - 1 ==> FailedAt(script, k))
      && (r.ok <==> script(start + r.attempts - 1) == Exited(0))
      && (!r.ok ==> script(start + r.attempts - 1).Raised? || (r.attempts == MaxRetries && FailedAt(script, start + r.attempts - 1)))
      && r.sleeps == (if FailedAt(script, start + r.attempts - 1) then r.attempts else r.attempts - 1)
    decreases MaxRetries - i
  {
    var r := RunFrom(script, start, i);
    if FailedAt(script, start + i) {
      if i + 1 < MaxRetries {
        RunFromSpec(script, start, i + 1);
      } else {
        assert r == RunResult(false, MaxRetries, MaxRetries);
      }
    }
  }

  /** The loop of `run_cmd`, over the same script. */
  method RunCmd(script: Script, start: nat) returns (ok: bool, attempts: nat, sleeps: nat)
    ensures 1 <= attempts <= MaxRetries
    ensures forall k :: start <= k < start + attempts - 1 ==> FailedAt(script, k)
    ensures ok <==> script(start + attempts - 1) == Exited(0)
    ensures !ok ==> script(start + attempts - 1).Raised? || (attempts == MaxRetries && FailedAt(script, start + attempts - 1))
    ensures sleeps == (if FailedAt(script, start + attempts - 1) then attempts else attempts - 1)
    ensures RunResult(ok, attempts, sleeps) == Run(script, start)
  {
    attempts, sleeps := 0, 0;
    var i := 0;
    while i < MaxRetries
      invariant 0 <= i <= MaxRetries
      invariant attempts == i && sleeps == i
      invariant forall k :: start <= k < start + i ==> FailedAt(script, k)
      invariant RunFrom(script, start, i) == Run(script, start)
    {
      var outcome := script(start + i);
      attempts := attempts + 1;
      match outcome {
        case Raised =>
          return false, attempts, sleeps;
        case Exited(code) =>
          if code == 0 {
            return true, attempts, sleeps;
          }
          sleeps := sleeps + 1;
      }
      i := i + 1;
    }
    ok := false;
  }

  /** Two non-zero exits and then a success: three launches, two pauses. */
  lemma SucceedsOnThirdAttempt(script: Script, start: nat)
    requires script(start) == Exited(1) && script(start + 1) == Exited(2) && script(start + 2) == Exited(0)
    ensures Run(script, start) == RunResult(true, 3, 2)
  {
  }

  /** A command that never succeeds is launched exactly three times. */
  lemma GivesUpAfterThree(script: Script, start: nat)
    requires forall k :: start <= k < start + MaxRetries ==> FailedAt(script, k)
    ensures Run(script, start) == RunResult(false, 3, 3)
  {
    assert FailedAt(script, start) && FailedAt(script, start + 1) && FailedAt(script, start + 2);
  }

  /** A launch that raises ends the call with no further launch, whatever
      the later launches would have done. */
  lemma RaiseStopsAtOnce(script: Script, start: nat)
    requires script(start) == Raised
    ensures Run(script, start) == RunResult(false, 1, 0)
  {
  }
}
