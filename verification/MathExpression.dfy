/** Mathematical-expression questions: keys, answers and the verdict (math-expression.ts). */
module MathExpression {
  import opened Wrappers
  import opened Expression
  import opened Parser
  import opened Semantics
  import opened RationalArithmetic
  import opened Soundness
  import opened Completeness
  import opened Definedness
  import opened Outcomes

  datatype KeyState = Manual | Configured(expression: string)

  /** Parse and check the powers; both failures are the input error. */
  function Parsed(text: string, variables: seq<string>): Option<Node> {
    var node :- ParseExpression(text, variables);
    if ValidatePowers(node) then Some(node) else None
  }

  /** A key must also survive the undefinedness pass. */
  function NormalizeKey(text: string, variables: seq<string>): Option<Node> {
    var node :- Parsed(text, variables);
    if Visit(node).Refused? then None else Some(node)
  }

  /** The outcome of a run that is made only to see whether the answer is defined. */
  function Manually<T>(r: Run<T>): Evaluation {
    match r
    case Done(_, _) => Verdict(ManualReview)
    case Thrown(failure, _) => Caught(failure)
  }

  function Caught(failure: Failure): Evaluation {
    match failure
    case Undefined => Verdict(UndefinedExpression)
    case ProofLimit => Verdict(ManualReview)
    case BadInput => InputError
  }

  function Decide(node: Node, key: Option<Node>): Evaluation {
    match Visit(node)
    case Refused(failure) => Caught(failure)
    case Known(_) =>
      if ContainsVariable(node) then Verdict(ManualReview)
      else if key.None? || ContainsVariable(key.value) then Manually(Eval(node, 0))
      else match CompareConstants(node, key.value)
        case Done(equal, _) => Verdict(if equal then ProvedEquivalent else ProvedDifferent)
        case Thrown(failure, _) => Caught(failure)
  }

  function Evaluate(variables: seq<string>, state: KeyState, answer: Option<string>): Evaluation {
    if !ValidVariables(variables) then InputError
    else if state.Configured? && NormalizeKey(state.expression, variables).None? then InputError
    else if answer.None? then Verdict(ManualReview)
    else match Parsed(answer.value, variables)
      case None => Verdict(InvalidInput)
      case Some(node) =>
        Decide(node, if state.Manual? then None else NormalizeKey(state.expression, variables))
  }

  // ----- The comparison --------------------------------------------------------------------

  /** Both sides form only integers that fit, and their costs fit one budget together. */
  ghost predicate Comparable(a: Node, b: Node) {
    Affordable(a) && Affordable(b) && Cost(a) + Cost(b) <= OPERATION_LIMIT
  }

  /** Why a comparison stops: on the budget, or as one of the sides does on a budget of its own. */
  predicate StopsAsSides(a: Node, b: Node) {
    match CompareConstants(a, b)
    case Done(_, _) => true
    case Thrown(f, _) =>
      || f == ProofLimit
      || (Eval(a, 0).Thrown? && Eval(a, 0).failure == f)
      || (Eval(b, 0).Thrown? && Eval(b, 0).failure == f)
  }

  /** The comparison finishes exactly for comparable sides, and then says whether they mean the same. */
  lemma {:induction false} CompareExactly(a: Node, b: Node)
    ensures CompareConstants(a, b).Done? <==> Comparable(a, b)
    ensures CompareConstants(a, b).Done? ==> CompareConstants(a, b).value == (Value(a) == Value(b))
    ensures Comparable(a, b) ==> Value(a).Some? && Value(b).Some?
    ensures StopsAsSides(a, b)
  {
    hide Eval, Affordable, Cost, Value, Lowest, Exact;
    EvaluatesIff(a, 0);
    var r := Eval(a, 0);
    if r.Done? {
      EvaluatesIff(b, r.operations);
      EvalFromStart(b, r.operations);
      var s := Eval(b, r.operations);
      if s.Done? {
        ExactEquality(r.value, s.value);
      }
    }
  }

  // ----- The decider -----------------------------------------------------------------------

  /** A tree that a key can hold. */
  ghost predicate AcceptedKey(node: Node) {
    PowersAccepted(node) && !ProvablyUndefined(node)
  }

  lemma {:induction false} ParsedIff(text: string, variables: seq<string>)
    ensures Parsed(text, variables) ==
            match ParseExpression(text, variables)
            case None => None
            case Some(node) => if PowersAccepted(node) then Some(node) else None
    ensures NormalizeKey(text, variables) ==
            match ParseExpression(text, variables)
            case None => None
            case Some(node) => if AcceptedKey(node) then Some(node) else None
  {
    hide ParseExpression, ValidatePowers, Visit, ProvablyUndefined, PowersAccepted;
    if ParseExpression(text, variables).Some? {
      var node := ParseExpression(text, variables).value;
      ValidatePowersIff(node);
      if ValidatePowers(node) {
        VisitIff(node);
      }
    }
  }

  /** Why an evaluation of an accepted tree stops: never the input error; undefined only if provably so. */
  lemma {:induction false} AcceptedFailures(node: Node)
    requires PowersAccepted(node)
    ensures Eval(node, 0).Thrown? ==> Eval(node, 0).failure != BadInput
    ensures Eval(node, 0).Thrown? && Eval(node, 0).failure == Undefined ==> ProvablyUndefined(node)
  {
    hide Eval, ValidatePowers, ProvablyUndefined, PowersAccepted;
    ValidatePowersIff(node);
    NoBadInput(node, 0);
    if Eval(node, 0).Thrown? && Eval(node, 0).failure == Undefined {
      UndefinedIsProvable(node, 0);
    }
  }

  /** The verdict on an accepted answer, from the meanings of the two trees and what they cost. */
  ghost function Judgement(node: Node, key: Option<Node>): Outcome {
    if ProvablyUndefined(node) then UndefinedExpression
    else if key.None? || !Comparable(node, key.value) then ManualReview
    else if Value(node) == Value(key.value) then ProvedEquivalent
    else ProvedDifferent
  }

  /**
   The decider, case by case. In particular it never raises the input error, a budget that runs out
   only ever asks for manual review, and the key is never the reason for an undefined verdict.
   */
  lemma {:induction false} DecideExactly(node: Node, key: Option<Node>)
    requires PowersAccepted(node) && (key.Some? ==> AcceptedKey(key.value))
    ensures Decide(node, key) == Verdict(Judgement(node, key))
  {
    hide Eval, ValidatePowers, PowersAccepted, Visit, ProvablyUndefined, CompareConstants, Affordable, Cost, Value,
      ContainsVariable;
    ValidatePowersIff(node);
    VisitIff(node);
    AcceptedFailures(node);
    AffordableIsConstant(node);
    if key.Some? {
      AcceptedFailures(key.value);
      CompareExactly(node, key.value);
      AffordableIsConstant(key.value);
    }
  }

  lemma {:induction false} AffordableIsConstant(node: Node)
    ensures Affordable(node) ==> !ContainsVariable(node)
  {
    hide Affordable;
    ContainsVariableIff(node);
    if Affordable(node) {
      AffordableHasNoNames(node);
    }
  }

  // ----- Main results ----------------------------------------------------------------------

  ghost predicate IsAnswer(text: string, variables: seq<string>) {
    ParseExpression(text, variables).Some? && PowersAccepted(ParseExpression(text, variables).value)
  }

  ghost predicate IsKey(text: string, variables: seq<string>) {
    ParseExpression(text, variables).Some? && AcceptedKey(ParseExpression(text, variables).value)
  }

  /** The whole evaluation, from the trees the texts are read as, their meanings and their costs. */
  lemma {:induction false} EvaluateExactly(variables: seq<string>, state: KeyState, answer: Option<string>)
    ensures Evaluate(variables, state, answer) ==
            if !ValidVariables(variables) || (state.Configured? && !IsKey(state.expression, variables)) then InputError
            else if answer.None? then Verdict(ManualReview)
            else if !IsAnswer(answer.value, variables) then Verdict(InvalidInput)
            else Verdict(Judgement(ParseExpression(answer.value, variables).value,
                                   if state.Manual? then None else ParseExpression(state.expression, variables)))
  {
    hide ParseExpression, Parsed, NormalizeKey, Decide, ValidVariables, PowersAccepted, AcceptedKey, Judgement;
    if state.Configured? {
      ParsedIff(state.expression, variables);
    }
    if answer.Some? {
      ParsedIff(answer.value, variables);
      if IsAnswer(answer.value, variables) && (state.Configured? ==> IsKey(state.expression, variables)) {
        DecideExactly(ParseExpression(answer.value, variables).value,
                      if state.Manual? then None else ParseExpression(state.expression, variables));
      }
    }
  }

  /** A verdict about an answer agrees with the meanings of the two trees under the assignment `env`. */
  predicate Sound(outcome: Outcome, node: Node, key: Option<Node>, env: string -> real) {
    match outcome
    case ProvedEquivalent => key.Some? && Meaning(node, env).Some? && Meaning(node, env) == Meaning(key.value, env)
    case ProvedDifferent =>
      && key.Some? && Meaning(node, env).Some? && Meaning(key.value, env).Some?
      && Meaning(node, env) != Meaning(key.value, env)
    case UndefinedExpression => Meaning(node, env) == None
    case _ => true
  }

  lemma {:induction false} JudgementSound(node: Node, key: Option<Node>, env: string -> real)
    ensures Sound(Judgement(node, key), node, key, env)
  {
    hide Meaning, ProvablyUndefined, Affordable, Cost;
    if ProvablyUndefined(node) {
      ProvablyUndefinedMeansNone(node, env);
    } else if key.Some? && Comparable(node, key.value) {
      AffordableHasNoNames(node);
      AffordableHasNoNames(key.value);
      ConstantMeaning(node, env);
      ConstantMeaning(key.value, env);
      CompareExactly(node, key.value);
    }
  }

  /** Verdict soundness against the strict meaning, for texts and under every assignment. */
  lemma {:induction false} VerdictSound(variables: seq<string>, state: KeyState, answer: string, env: string -> real)
    requires Evaluate(variables, state, Some(answer)).Verdict?
    requires Evaluate(variables, state, Some(answer)) != Verdict(InvalidInput)
    ensures ParseExpression(answer, variables).Some?
    ensures Sound(Evaluate(variables, state, Some(answer)).outcome, ParseExpression(answer, variables).value,
                  if state.Manual? then None else ParseExpression(state.expression, variables), env)
  {
    hide ParseExpression, Evaluate, ValidVariables, PowersAccepted, AcceptedKey, Judgement, Sound;
    EvaluateExactly(variables, state, Some(answer));
    JudgementSound(ParseExpression(answer, variables).value,
                   if state.Manual? then None else ParseExpression(state.expression, variables), env);
  }

  /** The input error is raised only for bad variables or a bad key, never by the decision itself. */
  lemma {:induction false} InputErrorIff(variables: seq<string>, state: KeyState, answer: Option<string>)
    ensures Evaluate(variables, state, answer) == InputError <==>
            !ValidVariables(variables) || (state.Configured? && !IsKey(state.expression, variables))
    ensures Evaluate(variables, state, answer) == Verdict(InvalidInput) <==>
            && ValidVariables(variables)
            && (state.Configured? ==> IsKey(state.expression, variables))
            && answer.Some? && !IsAnswer(answer.value, variables)
  {
    hide Evaluate, ValidVariables, IsKey, IsAnswer, ProvablyUndefined, Comparable;
    EvaluateExactly(variables, state, answer);
  }

  /** A verdict of equivalence or difference does not depend on which text is the key. */
  lemma {:induction false} VerdictSymmetric(variables: seq<string>, key: string, answer: string, outcome: Outcome)
    requires outcome == ProvedEquivalent || outcome == ProvedDifferent
    requires Evaluate(variables, Configured(key), Some(answer)) == Verdict(outcome)
    ensures Evaluate(variables, Configured(answer), Some(key)) == Verdict(outcome)
  {
    hide Evaluate, ParseExpression, ValidVariables, ProvablyUndefined, PowersAccepted, Affordable, Cost, Value;
    EvaluateExactly(variables, Configured(key), Some(answer));
    EvaluateExactly(variables, Configured(answer), Some(key));
  }

  /** A budget already partly spent never turns one decided value into another. */
  lemma {:induction false} SpentBudgetSameValue(node: Node, k: nat, spent: nat)
    requires k + spent <= OPERATION_LIMIT
    requires Eval(node, k + spent).Done?
    ensures Eval(node, k).Done? && Eval(node, k).value == Eval(node, k + spent).value
    ensures Eval(node, k).operations + spent == Eval(node, k + spent).operations
  {
    hide Eval;
    EvalLater(node, k, spent);
  }
}
