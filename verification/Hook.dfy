/** The decision of the end-of-turn hook and its limits: how often it sends the agent back before it gives up. */
module Hook {
  import opened Counting
  import opened HookAttempts

  const MAX_ATTEMPTS := 3
  const MAX_HOST_WAITS := 3

  /** The gate passes, blocks on evidence, or blocks for no other reason than host work that is not done yet. */
  datatype Verdict = Passes | BlocksOnEvidence | BlocksOnPending

  datatype Decision = Allow | SendBack | GiveUp | AnnouncePass

  /** priorBlocks is what the harness says it already sent back in a row, when it counts blocks itself. */
  datatype Event = Event(session: string, countsBlocks: bool, priorBlocks: int)

  datatype Counters = Counters(attempts: int, waits: int)

  /** The blocks on evidence before this one: the hook's own count, or the harness's without the waits. */
  function PriorOf(counters: Counters, countsBlocks: bool, priorBlocks: int): int {
    if countsBlocks then Max(0, priorBlocks - counters.waits) else counters.attempts
  }

  /** What the hook decides and what it leaves in the counters of the session. */
  function Step(counters: Counters, countsBlocks: bool, priorBlocks: int, verdict: Verdict): (Counters, Decision) {
    var prior := PriorOf(counters, countsBlocks, priorBlocks);
    match verdict
    case Passes => (Counters(0, 0), if prior > 0 || counters.waits > 0 then AnnouncePass else Allow)
    case BlocksOnPending =>
      if counters.waits >= MAX_HOST_WAITS then (Counters(0, 0), GiveUp)
      else (counters.(waits := counters.waits + 1), SendBack)
    case BlocksOnEvidence =>
      if prior >= MAX_ATTEMPTS then (Counters(0, 0), GiveUp)
      else (if countsBlocks then counters else counters.(attempts := prior + 1), SendBack)
  }

  function CountersOf(attempts: Attempts, session: string): Counters
    reads attempts
  {
    Counters(attempts.Count(session), attempts.CountHostWaits(session))
  }

  /** Only the counters of the sessions sanitized to the same name may have changed. */
  twostate predicate OthersUnchanged(attempts: Attempts, session: string)
    reads attempts
  {
    forall other: string | Sanitized(other) != Sanitized(session) ::
      CountersOf(attempts, other) == old(CountersOf(attempts, other))
  }

  method Decide(event: Event, attempts: Attempts, verdict: Verdict) returns (decision: Decision)
    modifies attempts
    ensures (CountersOf(attempts, event.session), decision)
            == Step(old(CountersOf(attempts, event.session)), event.countsBlocks, event.priorBlocks, verdict)
    ensures OthersUnchanged(attempts, event.session)
  {
    var waits := attempts.CountHostWaits(event.session);
    var prior := event.priorBlocks;
    if event.countsBlocks {
      prior := Max(0, event.priorBlocks - waits);
    } else {
      prior := attempts.Count(event.session);
    }
    if verdict == Passes {
      attempts.Reset(event.session);
      if prior > 0 || waits > 0 {
        return AnnouncePass;
      }
      return Allow;
    }
    if verdict == BlocksOnPending {
      decision := WaitForHost(event, attempts, waits);
      return;
    }
    if prior >= MAX_ATTEMPTS {
      attempts.Reset(event.session);
      return GiveUp;
    }
    if !event.countsBlocks {
      attempts.Record(event.session, prior + 1);
    }
    return SendBack;
  }

  method WaitForHost(event: Event, attempts: Attempts, waits: int) returns (decision: Decision)
    requires waits == attempts.CountHostWaits(event.session)
    modifies attempts
    ensures (CountersOf(attempts, event.session), decision)
            == Step(old(CountersOf(attempts, event.session)), event.countsBlocks, event.priorBlocks, BlocksOnPending)
    ensures OthersUnchanged(attempts, event.session)
  {
    if waits >= MAX_HOST_WAITS {
      attempts.Reset(event.session);
      return GiveUp;
    }
    attempts.RecordHostWaits(event.session, waits + 1);
    return SendBack;
  }
}
