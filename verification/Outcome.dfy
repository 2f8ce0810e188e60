/** The crawler-facing view of a job: state hash and result hash folded into one outcome. */
module Outcome {
  import opened Wrappers
  import opened Protocol

  datatype FingerprintOutcome = PENDING | MATCH | NO_MATCH | SKIPPED | RETRYABLE_ERROR | PERMANENT_ERROR

  datatype OutcomeView = OutcomeView(
    jobId: string,
    outcome: FingerprintOutcome,
    attempt: Option<nat>,
    workerId: Option<string>,
    reason: Option<string>,
    record: Option<ResultRecord>)

  const TERMINAL_OUTCOMES := {MATCH, NO_MATCH, SKIPPED, PERMANENT_ERROR}

  const NO_RESULT := "job completed with no committed Result"

  function OfDecision(decision: Decision): FingerprintOutcome {
    match decision
    case Match => MATCH
    case NoMatch => NO_MATCH
    case ProcessingFailure => PERMANENT_ERROR
  }

  /** `record` stands for the fields a committed result passes through unchanged. */
  function ResolveOutcome(r: Redis, id: string): OutcomeView {
    match Lookup(r.state, id)
    case None => OutcomeView(id, PENDING, None, None, None, None)
    case Some(h) =>
      match h.status
      case Claimed => OutcomeView(id, PENDING, h.attempt, h.workerId, None, None)
      case Rejected => OutcomeView(id, SKIPPED, None, None, h.reason, None)
      case RetryScheduled => OutcomeView(id, RETRYABLE_ERROR, h.attempt, None, h.lastFailure, None)
      case Failed => OutcomeView(id, PERMANENT_ERROR, h.attempt, None, h.failureReason, None)
      case Completed =>
        match Lookup(r.results, id)
        case None => OutcomeView(id, SKIPPED, h.attempt, None, Some(NO_RESULT), None)
        case Some(rec) =>
          var outcome := OfDecision(rec.result.decision);
          OutcomeView(id, outcome, Some(rec.attempt), Some(rec.workerId),
                      if outcome == PERMANENT_ERROR then rec.result.summary else None, Some(rec))
  }

  predicate IsTerminal(r: Redis, id: string) {
    ResolveOutcome(r, id).outcome in TERMINAL_OUTCOMES
  }
}
