/** Numeric questions: normalization of keys and answers, and the verdict (numeric.ts). */
module Numeric {
  import opened Wrappers
  import opened Powers
  import opened ExactDecimal
  import opened CanonicalDecimal
  import opened Numerals
  import opened DecimalArithmetic
  import opened Outcomes

  datatype Units = Units(required: bool, allowedCodes: seq<string>, allowUnitless: bool)

  datatype Answer = Answer(value: string, unitCode: Option<string>)

  datatype Policy =
    | Exact
    | AbsoluteTolerance(tolerance: string)
    | RelativeTolerance(relativeTolerance: string)
    | AcceptedRange(lower: string, upper: string, includeLower: bool, includeUpper: bool)

  datatype Key = Key(reference: Answer, policy: Option<Policy>)

  datatype KeyState = Manual | Configured(key: Key)

  // ----- Normalization ---------------------------------------------------------------------

  predicate IsLetter(c: char) {
    'A' <= c <= 'Z' || 'a' <= c <= 'z'
  }

  predicate IsUnitCode(code: string) {
    && 0 < |code| <= 24
    && IsLetter(code[0])
    && forall i :: 0 <= i < |code| ==> IsLetter(code[i]) || '0' <= code[i] <= '9' || code[i] == '_' || code[i] == '-'
  }

  /** A complete definition: units are either required or optional, and some answer form is allowed. */
  predicate ValidUnits(units: Units) {
    && units.required != units.allowUnitless
    && |units.allowedCodes| <= 16
    && (forall i :: 0 <= i < |units.allowedCodes| ==> IsUnitCode(units.allowedCodes[i]))
    && (forall i, j :: 0 <= i < j < |units.allowedCodes| ==> units.allowedCodes[i] != units.allowedCodes[j])
    && (units.allowedCodes != [] || units.allowUnitless)
  }

  predicate ValidUnit(units: Units, unitCode: Option<string>) {
    match unitCode
    case None => units.allowUnitless
    case Some(code) => code in units.allowedCodes
  }

  function NormalizeNumeral(value: string): Option<string> {
    var d :- ParseDecimal(value);
    Some(Canonical(d))
  }

  function NormalizeAnswer(units: Units, answer: Answer): Option<Answer> {
    var value :- NormalizeNumeral(answer.value);
    if ValidUnit(units, answer.unitCode) then Some(Answer(value, answer.unitCode)) else None
  }

  /** The policy check: a tolerance is nonnegative, a relative reference nonzero, a range nonempty. */
  function NormalizePolicy(policy: Policy, reference: Answer): Option<Policy> {
    match policy
    case Exact => Some(Exact)
    case AbsoluteTolerance(text) =>
      var tolerance :- ParseDecimal(text);
      if tolerance.coefficient < 0 then None else Some(AbsoluteTolerance(Canonical(tolerance)))
    case RelativeTolerance(text) =>
      var tolerance :- ParseDecimal(text);
      if tolerance.coefficient < 0 then None else
      var value :- ParseDecimal(reference.value);
      if value.coefficient == 0 then None else Some(RelativeTolerance(Canonical(tolerance)))
    case AcceptedRange(lowerText, upperText, includeLower, includeUpper) =>
      var lower :- ParseDecimal(lowerText);
      var upper :- ParseDecimal(upperText);
      var comparison := Compare(lower, upper);
      if comparison > 0 || (comparison == 0 && (!includeLower || !includeUpper)) then None
      else Some(AcceptedRange(Canonical(lower), Canonical(upper), includeLower, includeUpper))
  }

  function NormalizeKey(units: Units, key: Key): Option<Key> {
    var reference :- NormalizeAnswer(units, key.reference);
    match key.policy
    case None => Some(Key(reference, None))
    case Some(p) =>
      var policy :- NormalizePolicy(p, reference);
      Some(Key(reference, Some(policy)))
  }

  // ----- The decider -----------------------------------------------------------------------

  /** The comparison made for one policy; it fails only if a stored numeral cannot be read. */
  function Matches(policy: Policy, value: Decimal, reference: Decimal): Option<bool> {
    match policy
    case Exact => Some(Compare(value, reference) == 0)
    case AcceptedRange(lowerText, upperText, includeLower, includeUpper) =>
      var lower :- ParseDecimal(lowerText);
      var upper :- ParseDecimal(upperText);
      var fromLower, fromUpper := Compare(value, lower), Compare(value, upper);
      Some((fromLower > 0 || (fromLower == 0 && includeLower)) && (fromUpper < 0 || (fromUpper == 0 && includeUpper)))
    case AbsoluteTolerance(text) =>
      var tolerance :- ParseDecimal(text);
      Some(Compare(AbsoluteDifference(value, reference), tolerance) <= 0)
    case RelativeTolerance(text) =>
      var relative :- ParseDecimal(text);
      var tolerance := Multiply(Decimal(Magnitude(reference.coefficient), reference.exponent), relative);
      Some(Compare(AbsoluteDifference(value, reference), tolerance) <= 0)
  }

  function Evaluate(units: Units, state: KeyState, answer: Option<Answer>): Evaluation {
    if !ValidUnits(units) then InputError
    else if state.Configured? && NormalizeKey(units, state.key).None? then InputError
    else if answer.None? then Verdict(ManualReview)
    else match NormalizeAnswer(units, answer.value)
      case None => Verdict(InvalidInput)
      case Some(normalized) =>
        if state.Manual? then Verdict(ManualReview)
        else Decide(NormalizeKey(units, state.key).value, normalized)
  }

  function Decide(key: Key, answer: Answer): Evaluation {
    if key.policy.None? || answer.unitCode != key.reference.unitCode then Verdict(ManualReview)
    else match (ParseDecimal(answer.value), ParseDecimal(key.reference.value))
      case (Some(value), Some(reference)) =>
        (match Matches(key.policy.value, value, reference)
         case Some(accepted) => Verdict(if accepted then ProvedEquivalent else ProvedDifferent)
         case None => InputError)
      case _ => InputError
  }

  // ----- What the policies mean ------------------------------------------------------------

  ghost predicate Readable(policy: Policy) {
    match policy
    case Exact => true
    case AbsoluteTolerance(t) => IsNumeral(t)
    case RelativeTolerance(t) => IsNumeral(t)
    case AcceptedRange(l, u, _, _) => IsNumeral(l) && IsNumeral(u)
  }

  /** The mathematical meaning of a policy, as an inequality between exact numbers. */
  ghost predicate Accepts(policy: Policy, value: real, reference: real)
    requires Readable(policy)
  {
    match policy
    case Exact => value == reference
    case AbsoluteTolerance(t) => Abs(value - reference) <= NumberOf(t)
    case RelativeTolerance(t) => Abs(value - reference) <= Abs(reference) * NumberOf(t)
    case AcceptedRange(l, u, includeLower, includeUpper) =>
      && (NumberOf(l) < value || (includeLower && NumberOf(l) == value))
      && (value < NumberOf(u) || (includeUpper && value == NumberOf(u)))
  }

  /** A tolerance is nonnegative, a relative one has a reference other than zero, a range holds something. */
  ghost predicate ValidPolicy(policy: Policy, reference: real) {
    && Readable(policy)
    && match policy
       case Exact => true
       case AbsoluteTolerance(t) => NumberOf(t) >= 0.0
       case RelativeTolerance(t) => NumberOf(t) >= 0.0 && reference != 0.0
       case AcceptedRange(_, _, _, _) => exists v: real :: Accepts(policy, v, v)
  }

  /** A number with an allowed unit, or without one where that is allowed. */
  ghost predicate ValidAnswer(units: Units, answer: Answer) {
    && IsNumeral(answer.value)
    && ((answer.unitCode.None? && units.allowUnitless)
        || exists i :: 0 <= i < |units.allowedCodes| && answer.unitCode == Some(units.allowedCodes[i]))
  }

  /** A letter, then up to 23 letters, digits, underscores and hyphens. */
  predicate IsCode(code: string) {
    && 1 <= |code| <= 24
    && (forall i :: 0 <= i < |code| ==> IsLetter(code[i]) || code[i] in "0123456789_-")
    && code[0] !in "0123456789_-"
  }

  /** Either units are required or they may be missing; at most 16 different codes, and some way to answer. */
  predicate IsComplete(units: Units) {
    && (units.required <==> !units.allowUnitless)
    && |units.allowedCodes| <= 16
    && (forall i, j | 0 <= i < |units.allowedCodes| && 0 <= j < |units.allowedCodes| ::
          units.allowedCodes[i] == units.allowedCodes[j] ==> i == j)
    && (forall code <- units.allowedCodes :: IsCode(code))
    && (units.required ==> units.allowedCodes != [])
  }

  lemma {:induction false} IsCodeIff(code: string)
    ensures IsCode(code) <==> IsUnitCode(code)
  {
    forall c: char
      ensures c in "0123456789_-" <==> '0' <= c <= '9' || c == '_' || c == '-'
    {
      if '0' <= c <= '9' {
        assert "0123456789_-"[c as int - '0' as int] == c;
      }
      assert "0123456789_-"[10] == '_' && "0123456789_-"[11] == '-';
    }
  }

  lemma {:induction false} IsCompleteIff(units: Units)
    ensures IsComplete(units) <==> ValidUnits(units)
  {
    hide IsCode, IsUnitCode;
    forall code: string
      ensures IsCode(code) <==> IsUnitCode(code)
    {
      IsCodeIff(code);
    }
  }

  ghost predicate ValidKey(units: Units, key: Key) {
    && ValidAnswer(units, key.reference)
    && (key.policy.Some? ==> ValidPolicy(key.policy.value, NumberOf(key.reference.value)))
  }

  lemma {:induction false} MagnitudeMeaning(d: Decimal)
    ensures Number(Decimal(Magnitude(d.coefficient), d.exponent)) == Abs(Number(d))
  {
    hide Scale;
    ScaleAdd(d.coefficient, 0, d.exponent);
    ScaleOrder(d.coefficient, 0, d.exponent);
  }

  /** The comparisons made on integers decide exactly the mathematical inequality. */
  lemma {:induction false} MatchesMeaning(policy: Policy, value: Decimal, reference: Decimal)
    requires Readable(policy)
    ensures Matches(policy, value, reference) == Some(Accepts(policy, Number(value), Number(reference)))
  {
    hide Number, ParseDecimal, Compare, AbsoluteDifference, Multiply, Abs, Writes;
    match policy
    case Exact =>
      CompareMeaning(value, reference);
    case AcceptedRange(l, u, _, _) =>
      ParsedNumber(l);
      ParsedNumber(u);
      CompareMeaning(value, ParseDecimal(l).value);
      CompareMeaning(value, ParseDecimal(u).value);
    case AbsoluteTolerance(t) =>
      ParsedNumber(t);
      DifferenceMeaning(value, reference);
      CompareMeaning(AbsoluteDifference(value, reference), ParseDecimal(t).value);
    case RelativeTolerance(t) =>
      ParsedNumber(t);
      var magnitude := Decimal(Magnitude(reference.coefficient), reference.exponent);
      DifferenceMeaning(value, reference);
      MagnitudeMeaning(reference);
      ProductMeaning(magnitude, ParseDecimal(t).value);
      CompareMeaning(AbsoluteDifference(value, reference), Multiply(magnitude, ParseDecimal(t).value));
  }

  /** The canonical text of an accepted numeral is again a numeral, for the same number, and its own canonical text. */
  lemma {:induction false} NormalizedNumeral(text: string)
    ensures NormalizeNumeral(text).Some? <==> IsNumeral(text)
    ensures IsNumeral(text) ==>
              var normal := NormalizeNumeral(text).value;
              IsNumeral(normal) && NumberOf(normal) == NumberOf(text) && NormalizeNumeral(normal) == Some(normal)
  {
    hide ParseDecimal, Canonical, Writes, Number;
    ParsedNumber(text);
    if ParseDecimal(text).Some? {
      RoundTrip(text, ParseDecimal(text).value);
      ParsedNumber(Canonical(ParseDecimal(text).value));
    }
  }

  /** Normalizing a policy changes its texts but not what it accepts, and is idempotent. */
  lemma {:induction false} NormalizedPolicy(policy: Policy, reference: Answer, normalized: Policy)
    requires NormalizePolicy(policy, reference) == Some(normalized)
    ensures Readable(policy) && Readable(normalized)
    ensures forall v, r :: Accepts(normalized, v, r) == Accepts(policy, v, r)
    ensures NormalizePolicy(normalized, reference) == Some(normalized)
  {
    hide ParseDecimal, Canonical, Compare, Abs, Number, Writes;
    match policy
    case Exact =>
    case AbsoluteTolerance(t) => SameNumeral(t);
    case RelativeTolerance(t) => SameNumeral(t);
    case AcceptedRange(l, u, _, _) =>
      SameNumeral(l);
      SameNumeral(u);
  }

  lemma {:induction false} SameNumeral(text: string)
    requires ParseDecimal(text).Some?
    ensures var normal := Canonical(ParseDecimal(text).value);
            && ParseDecimal(normal) == ParseDecimal(text)
            && IsNumeral(text) && IsNumeral(normal) && NumberOf(normal) == NumberOf(text)
  {
    hide ParseDecimal, Canonical, Writes, Number;
    RoundTrip(text, ParseDecimal(text).value);
    ParsedNumber(text);
    ParsedNumber(Canonical(ParseDecimal(text).value));
  }

  /** Exactly which policies a key may carry, in terms of the numbers they write. */
  lemma {:induction false} PolicyValidity(policy: Policy, reference: Answer)
    requires IsNumeral(reference.value)
    ensures NormalizePolicy(policy, reference).Some? <==> ValidPolicy(policy, NumberOf(reference.value))
  {
    hide ParseDecimal, Canonical, Compare, Number, Writes;
    ParsedNumber(reference.value);
    match policy
    case Exact =>
    case AbsoluteTolerance(t) =>
      ParsedNumber(t);
      if ParseDecimal(t).Some? { SignMeaning(ParseDecimal(t).value); }
    case RelativeTolerance(t) =>
      ParsedNumber(t);
      if ParseDecimal(t).Some? { SignMeaning(ParseDecimal(t).value); }
      SignMeaning(ParseDecimal(reference.value).value);
    case AcceptedRange(l, u, _, _) =>
      ParsedNumber(l);
      ParsedNumber(u);
      if Readable(policy) {
        CompareMeaning(ParseDecimal(l).value, ParseDecimal(u).value);
        RangeNonempty(policy);
      }
  }

  /** A range holds a number exactly when its ends are in order and, if equal, both included. */
  lemma {:induction false} RangeNonempty(policy: Policy)
    requires policy.AcceptedRange? && Readable(policy)
    ensures (exists v: real :: Accepts(policy, v, v)) <==>
            var (l, u) := (NumberOf(policy.lower), NumberOf(policy.upper));
            l < u || (l == u && policy.includeLower && policy.includeUpper)
  {
    var middle := (NumberOf(policy.lower) + NumberOf(policy.upper)) / 2.0;
    assert middle >= NumberOf(policy.lower) || NumberOf(policy.upper) < NumberOf(policy.lower);
    if NumberOf(policy.lower) <= NumberOf(policy.upper) {
      assert Accepts(policy, middle, middle) <==>
             NumberOf(policy.lower) < NumberOf(policy.upper) || (policy.includeLower && policy.includeUpper);
    }
  }

  lemma {:induction false} SignMeaning(d: Decimal)
    ensures d.coefficient < 0 <==> Number(d) < 0.0
    ensures d.coefficient == 0 <==> Number(d) == 0.0
  {
    hide Scale;
    ScaleAdd(0, 0, d.exponent);
    ScaleOrder(d.coefficient, 0, d.exponent);
  }

  /** An answer is kept exactly when it is valid, with its unit and its number. */
  lemma {:induction false} NormalizeAnswerIff(units: Units, answer: Answer)
    ensures NormalizeAnswer(units, answer).Some? <==> ValidAnswer(units, answer)
    ensures ValidAnswer(units, answer) ==>
              var normalized := NormalizeAnswer(units, answer).value;
              && normalized.unitCode == answer.unitCode
              && IsNumeral(normalized.value) && NumberOf(normalized.value) == NumberOf(answer.value)
  {
    hide NormalizeNumeral, Writes;
    NormalizedNumeral(answer.value);
  }

  /** A key is kept exactly when it is valid; its policy means what it meant. */
  lemma {:induction false} NormalizeKeyIff(units: Units, key: Key)
    ensures NormalizeKey(units, key).Some? <==> ValidKey(units, key)
    ensures ValidKey(units, key) ==>
              var normalized := NormalizeKey(units, key).value;
              && NormalizeAnswer(units, key.reference) == Some(normalized.reference)
              && (normalized.policy.Some? <==> key.policy.Some?)
              && (key.policy.Some? ==>
                    && Readable(normalized.policy.value)
                    && forall v, r :: Accepts(normalized.policy.value, v, r) == Accepts(key.policy.value, v, r))
  {
    hide NormalizeAnswer, NormalizePolicy, ValidPolicy, Accepts, Readable, Writes;
    NormalizeAnswerIff(units, key.reference);
    if ValidAnswer(units, key.reference) && key.policy.Some? {
      var reference := NormalizeAnswer(units, key.reference).value;
      PolicyValidity(key.policy.value, reference);
      if NormalizePolicy(key.policy.value, reference).Some? {
        NormalizedPolicy(key.policy.value, reference, NormalizePolicy(key.policy.value, reference).value);
      }
    }
  }

  // ----- Main results ----------------------------------------------------------------------

  /** The outcome for a valid answer: a comparison only for the key's unit and policy, made on exact numbers. */
  ghost function Judgement(key: Key, answer: Answer): Outcome
    requires key.policy.Some? ==> Readable(key.policy.value)
    requires IsNumeral(answer.value) && IsNumeral(key.reference.value)
  {
    if key.policy.None? || answer.unitCode != key.reference.unitCode then ManualReview
    else if Accepts(key.policy.value, NumberOf(answer.value), NumberOf(key.reference.value)) then ProvedEquivalent
    else ProvedDifferent
  }

  /**
   The whole evaluation, from the numbers that the texts of answer, key and policy write, whatever
   the spelling of each.
   */
  lemma {:induction false} EvaluateExactly(units: Units, state: KeyState, answer: Option<Answer>)
    ensures Evaluate(units, state, answer) ==
            if !IsComplete(units) || (state.Configured? && !ValidKey(units, state.key)) then InputError
            else if answer.None? then Verdict(ManualReview)
            else if !ValidAnswer(units, answer.value) then Verdict(InvalidInput)
            else if state.Manual? then Verdict(ManualReview)
            else Verdict(Judgement(state.key, answer.value))
  {
    hide ValidUnits, NormalizeKey, NormalizeAnswer, Accepts, Readable, ValidPolicy, ValidUnit, Decide, Writes, IsNumeral,
      IsComplete;
    IsCompleteIff(units);
    if answer.Some? {
      NormalizeAnswerIff(units, answer.value);
    }
    if state.Configured? {
      NormalizeKeyIff(units, state.key);
      if answer.Some? && ValidKey(units, state.key) && ValidAnswer(units, answer.value) {
        DecideExactly(units, state.key, answer.value);
      }
    }
  }

  lemma {:induction false} DecideExactly(units: Units, key: Key, answer: Answer)
    requires ValidKey(units, key) && ValidAnswer(units, answer)
    ensures NormalizeKey(units, key).Some? && NormalizeAnswer(units, answer).Some?
    ensures Decide(NormalizeKey(units, key).value, NormalizeAnswer(units, answer).value)
            == Verdict(Judgement(key, answer))
  {
    hide NormalizeKey, NormalizeAnswer, Accepts, Matches, ParseDecimal, Number, ValidUnit, Writes, IsNumeral, Readable;
    NormalizeKeyIff(units, key);
    NormalizeAnswerIff(units, answer);
    NormalizeAnswerIff(units, key.reference);
    var normalized, given := NormalizeKey(units, key).value, NormalizeAnswer(units, answer).value;
    ParsedNumber(given.value);
    ParsedNumber(normalized.reference.value);
    if key.policy.Some? {
      MatchesMeaning(normalized.policy.value, ParseDecimal(given.value).value,
                     ParseDecimal(normalized.reference.value).value);
    }
  }

  /** The reference answer itself is accepted by every policy but a range that leaves it out. */
  lemma {:induction false} ReferenceAccepted(units: Units, key: Key)
    requires IsComplete(units) && ValidKey(units, key) && key.policy.Some?
    ensures Evaluate(units, Configured(key), Some(key.reference)) == Verdict(ProvedEquivalent) <==>
            (key.policy.value.AcceptedRange? ==>
               Accepts(key.policy.value, NumberOf(key.reference.value), NumberOf(key.reference.value)))
  {
    hide Evaluate, IsComplete, Writes;
    EvaluateExactly(units, Configured(key), Some(key.reference));
    var r := NumberOf(key.reference.value);
    assert Abs(r - r) == 0.0;
    if key.policy.value.RelativeTolerance? {
      NonnegativeProduct(Abs(r), NumberOf(key.policy.value.relativeTolerance));
    }
  }

  lemma {:induction false} NonnegativeProduct(a: real, b: real)
    requires a >= 0.0 && b >= 0.0
    ensures a * b >= 0.0
  {
  }

  lemma {:induction false} ProductMonotone(a: real, b: real, c: real)
    requires a >= 0.0 && b <= c
    ensures a * b <= a * c
  {
    NonnegativeProduct(a, c - b);
  }

  /** `wider` is the same kind of tolerance as `policy`, at least as large. */
  ghost predicate Widens(policy: Policy, wider: Policy)
    requires Readable(policy) && Readable(wider)
  {
    match (policy, wider)
    case (AbsoluteTolerance(s), AbsoluteTolerance(t)) => NumberOf(s) <= NumberOf(t)
    case (RelativeTolerance(s), RelativeTolerance(t)) => NumberOf(s) <= NumberOf(t)
    case _ => false
  }

  /** Raising a tolerance never rejects an answer that was accepted. */
  lemma {:induction false} ToleranceMonotone(units: Units, key: Key, wider: Policy, answer: Answer)
    requires Evaluate(units, Configured(key), Some(answer)) == Verdict(ProvedEquivalent)
    requires key.policy.Some? && Readable(key.policy.value) && Readable(wider) && Widens(key.policy.value, wider)
    ensures Evaluate(units, Configured(key.(policy := Some(wider))), Some(answer)) == Verdict(ProvedEquivalent)
  {
    hide Evaluate, IsComplete, Writes;
    EvaluateExactly(units, Configured(key), Some(answer));
    EvaluateExactly(units, Configured(key.(policy := Some(wider))), Some(answer));
    if wider.RelativeTolerance? {
      ProductMonotone(Abs(NumberOf(key.reference.value)), NumberOf(key.policy.value.relativeTolerance),
                      NumberOf(wider.relativeTolerance));
    }
  }

  /** Storing the normalized key instead of the submitted one changes no verdict. */
  lemma {:induction false} NormalizedKeySameVerdicts(units: Units, key: Key, normalized: Key, answer: Option<Answer>)
    requires NormalizeKey(units, key) == Some(normalized)
    ensures NormalizeKey(units, normalized) == Some(normalized)
    ensures Evaluate(units, Configured(normalized), answer) == Evaluate(units, Configured(key), answer)
  {
    hide ParseDecimal, Canonical, NormalizePolicy, ValidUnits, ValidUnit, Decide, Readable, Accepts, NormalizeNumeral, Writes;
    NormalizedNumeral(key.reference.value);
    if key.policy.Some? {
      NormalizedPolicy(key.policy.value, normalized.reference, normalized.policy.value);
    }
  }
}
