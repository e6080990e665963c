/** Outcomes shared by every question kind (contracts.ts). */
module Outcomes {
  datatype Outcome = ProvedEquivalent | ProvedDifferent | ManualReview | InvalidInput | UndefinedExpression

  /** An evaluation either yields an outcome or throws the fixed input error on a bad definition or key. */
  datatype Evaluation = Verdict(outcome: Outcome) | InputError
}
