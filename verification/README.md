# Proofs about exact answer evaluation, realtime protocols and content boundaries

This project models the parts of the school platform whose correctness rests on arithmetic, on
parsing or on the order of asynchronous steps, and proves what those parts are for. It checks with
`dafny verify dfyconfig.toml`. Lemmas carry `{:induction false}`, so that each proof is its body and
nothing else.

## What is modelled

**Question evaluation.** A student's number or formula is compared with a reference without floating
point. `ExactDecimal`, `CanonicalDecimal` and `DecimalArithmetic` hold the bounded decimal parser, its
canonical printer and the decimal operations, `Numerals` what a numeral in any of three digit scripts
means; `Numeric` the comparison policies and verdicts. `Lexer` and `Parser` hold the tokenizer and the
recursive-descent parser with its nesting and node budgets, `Lexemes` and `Grammar` the token patterns and
the grammar on their own, `Printer` and `Reparse` a printer with minimal parentheses that inverts the
parser. `RationalArithmetic` specifies the rational evaluator with its operation counter,
`RationalBudget` is the object that runs it, `Semantics` gives expressions a strict meaning over the
rationals inside the reals, `Soundness`, `Completeness` and `Definedness` connect the two, and
`MathExpression` is the end-to-end decider.

**Protocols.** `JobReplacement` and `JobOutcome` (replacing a finished queue job under a lock), `Presence` and
`PresenceSnapshot` (local maps and Redis scripts counting sockets, and snapshots read beside them),
`StateStoreRecovery`, `StateReconcile` and `ReconcileInterleaved` (recovering a Redis client),
`GatewayAdapter` (the adapter generation a socket handshake checks), `Lifecycle` and
`GracefulShutdown` (leases, draining, the shutdown coordinator). Each is a set of steps cut where the
source awaits, and the results hold for every interleaving. The exceptions are the lemmas of
`StateReconcile`, which run the reconciliation without other commands in between;
`ReconcileInterleaved` is its presence half beside other processes.

**Boundaries.** `JsonText`, `Utf8`, `JsonInspection`, `JsonDepth`, `JsonReading`, `RichSchema`,
`RichContent`, `RichContentJson` and `RichValidity` cover the rich-content JSON boundary, `RichForm` and
`RichCount` the documents it accepts, written out in literal keys, and `RichRewrite` what it changes in them; `PrivateMediaRange` and
`PrivateMediaContent` byte ranges and the validated byte stream; `QuestionLayout` the mixed layout of
questions and groups, over the stable sort of `StableSort`.

## Main results

- A verdict of equivalence or difference is sound for the strict meaning of both texts, and complete: two
  expressions whose integers fit 4096 bits and whose counted operations fit one budget are equivalent or
  different as their meanings are, and only a budget that is really too small asks for manual review
  (`MathExpression.VerdictSound`, `EvaluateExactly`, `Completeness.EvaluatesIff`). No integer of more than
  4097 bits is ever built (`RationalBudget.EvaluateConstant`).
- The parser accepts exactly the sentences of its grammar, however parenthesized, and returns the tree they
  denote (`Grammar.ParseIff`, `Reparse.ParseExpressionIff`); printing any such tree minimally and parsing it
  again gives the tree back (`Reparse.ParsePrintParse`).
- A numeral in any mixture of ASCII and Eastern digits means the number its digits write
  (`Numerals.WritesIff`), and a numeric verdict is the policy's inequality between such numbers
  (`Numeric.EvaluateExactly`); every accepted decimal survives its canonical form, which decides equality of
  numbers (`CanonicalDecimal.RoundTrip`, `CanonicalDecidesEquality`).
- No run of the job protocol removes an unfinished job as long as no holder outlives its lease, and a
  run from the empty state shows the lease assumption is needed
  (`JobReplacement.OnlyFinishedJobsRemoved`, `LeaseNeeded`); every answer that promises a job follows a
  moment of that call when the job was present (`AnswersWitnessed`). A call that runs undisturbed from any
  state ends with the job there and the answer its state demands (`JobOutcome.AloneOutcome`).
- Presence transitions, reported by Redis or by the local maps, alternate and tell whether a socket is
  open (`Presence.TransitionsAlternate`, `LocalTransitionsAlternate`); a user is listed exactly while
  online and not removed as stale since, and such a removal hits an online user in exactly one kind of
  race (`PresenceSnapshot.ListingIff`, `DropsOnlineIff`).
- A handshake passes its check exactly when the adapter was ready, and the same one, throughout
  (`GatewayAdapter.NoAba`, `PassesIff`); no Redis client made during recovery is ever lost
  (`StateStoreRecovery.NoClientLost`); and from every reachable state a store that is not being destroyed,
  or a gateway that is not draining either, can still become ready (`CanBecomeReady` of both).
- An idle moment is final exactly when it is reached while draining
  (`Lifecycle.IdleIsFinalIffDraining`); sockets are disconnected only then, and exit code 0 is set
  exactly when closing finished before the timer fired (`GracefulShutdown.DisconnectOnlyWhenIdle`,
  `ExitZeroIffClosedInTime`).
- The byte meter that never builds a text counts exactly its UTF-8 bytes; exactly the documents written out
  key by key are accepted; normalizing them changes only member order and the case of asset ids, is
  idempotent, and parsing a serialization gives the normal form (`JsonInspection.BytesAreText`,
  `RichCount.AcceptsIff`, `RichRewrite.NormalizeRewrites`, `RichContentJson.NormalizeIdempotent`,
  `ParseSerialized`).
- A stream completes exactly when the provider gives the promised count and then ends at once; an exact
  count alone is not enough (`PrivateMediaContent.CompletesIff`, `TrailingEmptyChunkFails`), and a
  delivered partial response holds exactly the bytes its header selects (`PartialContent`).

## What the proofs say about the source

- The node ceiling of the expression parser cannot fire: nodes never outnumber the tokens read, of which
  there are at most 128 (src/common/question-evaluation/expression-parser.ts:58-69 calls it an
  independent ceiling).
- The size check that follows a guarded power cannot fire (`Soundness.PowerGuard`).
- The bound on products is exact: nothing that would have fitted is refused
  (`Soundness.BoundedProductExactly`).
- A lock is left behind not only by a crash or a failed release: when the reply of the command that takes it
  is lost, the call fails before the block that would release it (`JobOutcome.LockLeftIff`,
  src/infrastructure/queue/bullmq.service.ts:350-360).
- An object delivered in full is still reported as failed when its provider adds an empty chunk after
  the last byte (`PrivateMediaContent.TrailingEmptyChunkFails`); without empty chunks it never is.
- A snapshot can take an online user off the list of its school: the user goes offline, its key is
  read as missing, the user comes back, and the late removal of stale ids unlists it. It stays unlisted
  until it is next brought online or refreshed (`PresenceSnapshot.OnlineUserUnlisted`,
  src/infrastructure/realtime/realtime-state-store.service.ts:978-980).
- Reconciliation only adds: a socket that Redis lists and no process owns stays
  (`StateReconcile.UntouchedUser`).

## Assumptions

- Job replacement: adding a job is a no-op on an existing id, finished jobs leave only through the
  protocol, tokens are unique, and a lock's lease outlives its holder's critical section. A command
  takes effect at most once, and not after its reply or its failure has been seen.
- Presence: no key expires during a run. Redis key strings of distinct (school, user) pairs are distinct.
- Reconciliation: the clock does not go back between writes, and no other process closes a socket of
  this one.
- Rich content: objects hold no key twice, and the native JSON parser gives back every normal form from
  its compact text. `RichContentJson.ReaderInverts` shows that such a parser exists.
- Layout: identifiers are ranked by the locale order, taken as a total order.

## Model

| member | source | states |
|---|---|---|
| ExactDecimal.MatchIff | src/common/question-evaluation/exact-decimal.ts:30-31 | the scanner accepts exactly the numerals of the pattern and splits each in only one way |
| ExactDecimal.ExponentFromIff | src/common/question-evaluation/exact-decimal.ts:32-37 | the exponent loop succeeds exactly for a value within the limit and yields that value |
| ExactDecimal.ParseExactDecimal | src/common/question-evaluation/exact-decimal.ts:13-47 | the loop and reassignments of the source compute the specified parse |
| Numerals.SpelledIff | src/common/question-evaluation/exact-decimal.ts:20-47 | a numeral spelled in any mixture of the three digit scripts and both points is accepted exactly within the length, exponent and significance limits, and denotes the number its digits write |
| Numerals.WritesIff | src/common/question-evaluation/exact-decimal.ts:13-47 | the accepted texts and their numbers, character by character, with no conversion between scripts in the statement |
| Numerals.ParsedDecimalIff | src/common/question-evaluation/exact-decimal.ts:38-47 | what is returned is the normal form of exactly the number written |
| ExactDecimal.ParseRejects | src/common/question-evaluation/exact-decimal.ts:30-31 | text of any other shape is refused |
| ExactDecimal.AssembleMeaning | src/common/question-evaluation/exact-decimal.ts:38-46 | stripping zeros on both sides keeps the number and gives the normal form |
| CanonicalDecimal.ParseCanonical | src/common/question-evaluation/exact-decimal.ts:49-65 | the canonical text of any normal decimal, once it fits the input limit, parses back to it |
| CanonicalDecimal.CanonicalFits | src/common/question-evaluation/exact-decimal.ts:55-64 | the canonical text of an accepted input is at most 64 characters long |
| CanonicalDecimal.RoundTrip | src/common/question-evaluation/exact-decimal.ts:13-65 | for every accepted input the canonical text is accepted and parses to the same coefficient and exponent |
| CanonicalDecimal.NormalUnique | src/common/question-evaluation/exact-decimal.ts:39-46 | equal numbers have equal normal forms |
| CanonicalDecimal.CanonicalDecidesEquality | src/common/question-evaluation/exact-decimal.ts:49-65 | two accepted inputs have the same canonical text exactly when they denote the same number |
| DecimalArithmetic.CompareMeaning | src/common/question-evaluation/exact-decimal.ts:69-74 | the comparison is the order of the rationals denoted |
| DecimalArithmetic.DifferenceMeaning | src/common/question-evaluation/exact-decimal.ts:75-87 | the result denotes the distance of the two numbers |
| DecimalArithmetic.ProductMeaning | src/common/question-evaluation/exact-decimal.ts:88-96 | the result denotes the product of the two numbers |
| Numeric.MatchesMeaning | src/common/question-evaluation/numeric.ts:221-250 | each mode decides exactly its mathematical inequality between exact numbers |
| Numeric.PolicyValidity | src/common/question-evaluation/numeric.ts:93-170 | exactly which policies a key may carry: nonnegative tolerance, nonzero relative reference, nonempty range |
| Numeric.NormalizeAnswerIff | src/common/question-evaluation/numeric.ts:73-92 | an answer is kept exactly when it is a numeral with an allowed unit, with its unit and its number |
| Numeric.NormalizeKeyIff | src/common/question-evaluation/numeric.ts:171-191 | a key is kept exactly when its reference and its policy are valid, and its policy accepts what it accepted |
| Numeric.EvaluateExactly | src/common/question-evaluation/numeric.ts:192-251 | the whole evaluation case by case: input error, invalid input and manual review exactly when, otherwise the inequality of the policy between the numbers written, whatever their spelling |
| Numeric.ReferenceAccepted | src/common/question-evaluation/numeric.ts:224-250 | the reference itself is accepted exactly unless an explicit range leaves it out |
| Numeric.ToleranceMonotone | src/common/question-evaluation/numeric.ts:234-248 | raising a tolerance never rejects an accepted answer |
| Numeric.NormalizedKeySameVerdicts | src/common/question-evaluation/numeric.ts:171-191 | normalizing a key is idempotent and changes no verdict |
| Lexer.Tokenize | src/common/question-evaluation/expression-parser.ts:78-92 | the cursor loop computes the specified tokens, or refuses |
| Lexer.LexKeepsText | src/common/question-evaluation/expression-parser.ts:80-92 | tokens joined are the text without blanks, at most 128 of them, each one lexing to itself |
| Lexer.LexSpaced | src/common/question-evaluation/expression-parser.ts:80-92 | tokens joined with blanks lex back to the same tokens |
| Lexemes.TokenIsLongest | src/common/question-evaluation/expression-parser.ts:85-91 | what is cut off is the longest start of the text that is a number, a name or a mark, and nothing is cut off only when no start is one |
| Lexemes.LexIff | src/common/question-evaluation/expression-parser.ts:78-92 | exactly the texts that split into at most 128 longest lexemes, with white space between or not, are tokenized, and into these |
| Parser.ExpressionParser.AddNode | src/common/question-evaluation/expression-parser.ts:59-69 | the node ceiling never fires: only the depth ceiling refuses, since nodes stay below tokens read |
| Parser.ExpressionParser.ParseSum | src/common/question-evaluation/expression-parser.ts:116-123 | the loop over plus and minus follows the grammar, reads at least one token, adds no more nodes than tokens read |
| Parser.ExpressionParser.ParseProduct | src/common/question-evaluation/expression-parser.ts:124-131 | the loop over times and divide follows the grammar, with the same accounting |
| Parser.ExpressionParser.ParseUnary | src/common/question-evaluation/expression-parser.ts:132-144 | signs nest to the right and restore the nesting counter |
| Parser.ExpressionParser.ParsePower | src/common/question-evaluation/expression-parser.ts:145-152 | powers associate to the right and restore the nesting counter |
| Parser.ExpressionParser.ParsePrimary | src/common/question-evaluation/expression-parser.ts:153-168 | parentheses, literals and declared variables, with the same accounting |
| Parser.ExpressionParser.Parse | src/common/question-evaluation/expression-parser.ts:169-171 | the mutating parser computes the specified tree and consumes every token |
| Parser.ParseText | src/common/question-evaluation/expression-parser.ts:70-172 | tokenizing and parsing together compute the specified parse |
| Grammar.ReadingParses | src/common/question-evaluation/expression-parser.ts:93-172 | any phrase of the grammar within the limits, with parentheses around anything, is read as the tree it denotes |
| Grammar.ParseIff | src/common/question-evaluation/expression-parser.ts:93-172 | a token list is accepted with a tree exactly when it is a sentence of the grammar for that tree, nested and as high as the limits allow; any other list is refused |
| Printer.MinimalIsLeast | src/common/question-evaluation/expression-parser.ts:93-172 | the minimal printing is the shortest and least nested of all phrases for a tree |
| Printer.AcceptedTree | src/common/question-evaluation/expression-parser.ts:93-172 | leaves and operators in order are the tokens without parentheses; depths are true heights; printing needs no more tokens or nesting |
| Reparse.PrintThenParse | src/common/question-evaluation/expression-parser.ts:93-172 | every well-formed tree whose printed nesting and size are within limits is parsed back from its printed form |
| Reparse.ParsePrintParse | src/common/question-evaluation/expression-parser.ts:93-172 | every tree the parser returns prints within the limits and parses back to itself |
| Reparse.ParseExpressionIff | src/common/question-evaluation/expression-parser.ts:70-172 | exactly which texts are accepted with which tree: plain characters, declarable names, longest lexemes, a sentence of the grammar |
| Reparse.TextRoundTrip | src/common/question-evaluation/expression-parser.ts:70-172 | the same for texts, as long as the printed text passes the length check |
| BitLength.BitsProduct | src/common/question-evaluation/expression-rational.ts:21-29 | the length of a product lies between the two bounds of the pre-check |
| BitLength.BitsPower | src/common/question-evaluation/expression-rational.ts:146-152 | a power is at most exponent times as long as its base |
| BitLength.BitsSum | src/common/question-evaluation/expression-rational.ts:170-175 | a sum or difference is at most one bit longer than its operands |
| LowestTerms.BezoutIdentity | src/common/question-evaluation/expression-rational.ts:35-42 | the Euclid remainder sequence ends in a combination of the two numbers |
| LowestTerms.GcdDivides | src/common/question-evaluation/expression-rational.ts:35-42 | the result of Euclid's loop divides both numbers |
| LowestTerms.GcdGreatest | src/common/question-evaluation/expression-rational.ts:35-42 | every common divisor divides it |
| LowestTerms.DividedOut | src/common/question-evaluation/expression-rational.ts:43-47 | dividing it out is exact and leaves coprime numbers |
| LowestTerms.ReducedUnique | src/common/question-evaluation/expression-rational.ts:184-187 | reduced fractions have equal cross products exactly when their fields are equal |
| RationalArithmetic.EvalLater | src/common/question-evaluation/expression-rational.ts:12-20 | starting with operations already spent gives the same value at the same cost, or the proof limit |
| Soundness.BoundedProductExactly | src/common/question-evaluation/expression-rational.ts:21-29 | the bounded product refuses exactly when the product is too long or the operations have run out |
| Soundness.MakeRationalMeaning | src/common/question-evaluation/expression-rational.ts:30-48 | a returned rational is the quotient in lowest terms with positive denominator; undefined only for denominator zero |
| Soundness.ExactEquality | src/common/question-evaluation/expression-rational.ts:184-187 | field-by-field comparison decides equality of the numbers, without cross multiplying |
| Soundness.PowerGuard | src/common/question-evaluation/expression-rational.ts:146-152 | past the guard both powers fit the bit limit |
| Soundness.PowerStopsOnlyOnOperations | src/common/question-evaluation/expression-rational.ts:153-158 | a guarded power stops only when the operations run out |
| Soundness.EvalMeaning | src/common/question-evaluation/expression-rational.ts:119-176 | whatever was spent, a value returned is the meaning, exact and reduced; undefined means there is no meaning |
| Completeness.ApplyExactly | src/common/question-evaluation/expression-rational.ts:138-176 | an operator succeeds exactly when the combination has a value, every product formed fits 4096 bits or the power its guard, and the counted operations fit the budget |
| Completeness.EvaluatesIff | src/common/question-evaluation/expression-rational.ts:119-176 | a tree is evaluated exactly when every integer it forms fits and its operations, counted from the meanings of its parts, fit what is left; the result is then the reduced fraction of its meaning at that count |
| Completeness.TurnsBound | src/common/question-evaluation/expression-rational.ts:37-42 | the reduction loop turns at most twice for each bit of the denominator |
| Completeness.SmallTreesEvaluate | src/common/question-evaluation/expression-rational.ts:119-176 | a tree with few nodes for the length of its denominators always evaluates |
| Completeness.MeaningDependsOnNames | src/common/question-evaluation/expression-rational.ts:50-59 | a tree means the same under assignments that agree on the names in it |
| RationalBudget.RationalBudget.Tick | src/common/question-evaluation/expression-rational.ts:14-17 | the counter object follows the specified counter |
| RationalBudget.RationalBudget.Multiply | src/common/question-evaluation/expression-rational.ts:21-29 | the product is exact and within 4096 bits, and nothing longer than 4097 bits was built |
| RationalBudget.RationalBudget.MakeRational | src/common/question-evaluation/expression-rational.ts:30-48 | the ticked Euclid loop computes the specified reduction |
| RationalBudget.RationalBudget.EvaluateConstant | src/common/question-evaluation/expression-rational.ts:119-176 | for every tree the value and the counter are as specified; with literals as parsed trees have them, no integer of more than 4097 bits is built |
| RationalBudget.CompareWithBudget | src/common/question-evaluation/expression-rational.ts:177-188 | both sides spend one fresh budget |
| RationalBudget.ParsedSmallLiterals | src/common/question-evaluation/expression-parser.ts:161-164 | literals of parsed trees have exponents small enough for the 4097-bit claim |
| Definedness.NoBadInput | src/common/question-evaluation/expression-rational.ts:99-118 | once powers are validated, no later evaluation raises the input error, whatever it has spent |
| Definedness.ValidatePowersIff | src/common/question-evaluation/expression-rational.ts:99-118 | validation passes exactly when every exponent is without variables and, if it can be evaluated, an integer from -16 to 16 |
| Definedness.VisitIff | src/common/question-evaluation/expression-rational.ts:60-90 | the undefinedness pass refuses exactly the provably undefined trees |
| Definedness.UndefinedIsProvable | src/common/question-evaluation/expression-rational.ts:62-80 | an evaluation ends undefined only because of a provable zero in the tree |
| Definedness.ProvablyUndefinedMeansNone | src/common/question-evaluation/expression-rational.ts:62-90 | a refused tree has no meaning under any assignment of its variables |
| MathExpression.CompareExactly | src/common/question-evaluation/expression-rational.ts:177-188 | a comparison finishes exactly when all integers on both sides fit and the two counts fit one budget, and then says whether the meanings are equal |
| MathExpression.DecideExactly | src/common/question-evaluation/math-expression.ts:116-137 | the verdict from the meanings and the counts of the two trees: undefined, manual review, equivalent exactly for equal meanings, different otherwise |
| MathExpression.EvaluateExactly | src/common/question-evaluation/math-expression.ts:94-138 | the whole evaluation of texts, case by case, down to that verdict |
| MathExpression.VerdictSound | src/common/question-evaluation/math-expression.ts:94-138 | under every assignment: equivalent means both have a meaning and it is equal, different that both have one and they differ, undefined that the answer has none |
| MathExpression.InputErrorIff | src/common/question-evaluation/math-expression.ts:74-114 | exactly when the input error is raised and when the answer is invalid |
| MathExpression.VerdictSymmetric | src/common/question-evaluation/math-expression.ts:125-137 | exchanging key and answer keeps a verdict of equivalence or difference |
| MathExpression.SpentBudgetSameValue | src/common/question-evaluation/expression-rational.ts:177-183 | a value found with operations already spent is found from a fresh budget at the same cost |
| JobReplacement.RunsKeepInvariant | src/infrastructure/queue/bullmq.service.ts:322-383 | in every run, with commands that fail before or after taking effect, a call in its critical section owns the lock, and where it relies on a finished job there is one |
| JobReplacement.OnlyFinishedJobsRemoved | src/infrastructure/queue/bullmq.service.ts:361-373 | a job removed by any step was finished, and the remover holds its lock |
| JobReplacement.OnlyOwnerReleases | src/infrastructure/queue/bullmq.service.ts:23-28 | a lock leaves only by the call whose token it carries, or by a lease nobody holds |
| JobReplacement.MutualExclusion | src/infrastructure/queue/bullmq.service.ts:350-378 | two calls never replace the same job at once |
| JobReplacement.AnswersWitnessed | src/infrastructure/queue/bullmq.service.ts:322-383 | for every created, replaced or preserved answer there is a moment, after the call began and no later than the step that answers it, at which the job was present |
| JobReplacement.LeaseNeeded | src/infrastructure/queue/bullmq.service.ts:350-378 | a run from the empty state in which every step but one lost lease is enabled, and whose last step removes an unfinished job |
| JobOutcome.AloneOutcome | src/infrastructure/queue/bullmq.service.ts:338-378 | from any state a call that runs undisturbed ends with the job there: created exactly if absent, preserved if unfinished, replaced if finished with a free lock, contended if finished and locked, and nothing else changed |
| JobOutcome.LockLeftIff | src/infrastructure/queue/bullmq.service.ts:350-378 | an ended call has left its lock exactly when it crashed holding it, lost the reply of taking it or failed to release it, and the lease has not ended since |
| JobOutcome.ContendedOnlyUnderLock | src/infrastructure/queue/bullmq.service.ts:350-357 | contended is answered only at a moment when another call has its lock on the job |
| Presence.LocalPresence.IncrementLocal | src/infrastructure/realtime/realtime-state-store.service.ts:780-808 | adds the socket to its user's set, changes no other user, keeps no empty inner map, reports size and transition |
| Presence.LocalPresence.DecrementLocal | src/infrastructure/realtime/realtime-state-store.service.ts:810-831 | removes the socket, drops maps that become empty, reports size and transition |
| Presence.LocalStepRefines | src/infrastructure/realtime/realtime-state-store.service.ts:780-831 | one local increment or decrement refines the step on sets, keeps no empty map and reports what the sets demand |
| Presence.LocalRunRefines | src/infrastructure/realtime/realtime-state-store.service.ts:780-831 | after every sequence of increments and decrements the nested maps hold exactly the open sockets and no empty inner map |
| Presence.LocalTransitionsAlternate | src/infrastructure/realtime/realtime-state-store.service.ts:780-831 | locally reported transitions alternate, equal those of Redis on the same operations, and tell whether a socket is open |
| Presence.LocalReportsAsRedis | src/infrastructure/realtime/realtime-state-store.service.ts:185-271 | after the same operations the local maps and the scripts report the same |
| Presence.ScriptRefines | src/infrastructure/realtime/realtime-state-store.service.ts:24-67 | each script refines the same set, reports what it demands and keeps keys and listing consistent |
| Presence.RefreshRefines | src/infrastructure/realtime/realtime-state-store.service.ts:69-90 | a refresh changes no set and succeeds exactly for a present socket |
| Presence.RunRefines | src/infrastructure/realtime/realtime-state-store.service.ts:654-684 | after every interleaving Redis holds exactly the open sockets |
| Presence.TransitionsAlternate | src/infrastructure/realtime/realtime-state-store.service.ts:654-684 | transitions reported for a user alternate, and their parity tells whether a socket is open |
| PresenceSnapshot.ListingIff | src/infrastructure/realtime/realtime-state-store.service.ts:24-90 | beside snapshots of any processes, a user has a key exactly while a socket is open, and is listed exactly while open and not removed as stale since last listed |
| PresenceSnapshot.ReportedAlternates | src/infrastructure/realtime/realtime-state-store.service.ts:654-684 | beside snapshots and refreshes, reported transitions still alternate and tell whether a socket is open |
| PresenceSnapshot.SnapshotReports | src/infrastructure/realtime/realtime-state-store.service.ts:953-982 | a snapshot reports exactly the users that were open and not dropped when it listed them and were seen online when it read their keys |
| PresenceSnapshot.SnapshotTimestamps | src/infrastructure/realtime/realtime-state-store.service.ts:953-982 | the timestamp reported for a user is the one its key held when it was read |
| PresenceSnapshot.DropsOnlineIff | src/infrastructure/realtime/realtime-state-store.service.ts:966-980 | the removal of stale ids unlists an online user exactly when that snapshot had listed it and either got no answer for its key or read it offline before the user came back |
| PresenceSnapshot.OnlineUserUnlisted | src/infrastructure/realtime/realtime-state-store.service.ts:953-982 | a run at whose end a user has an open socket and a key, is unlisted, and is left out by the next snapshot |
| StateStoreRecovery.RunInvariant | src/infrastructure/realtime/realtime-state-store.service.ts:459-573 | every interleaving of recoveries, failures and destruction keeps the invariant |
| StateStoreRecovery.ReadyAndSingle | src/infrastructure/realtime/realtime-state-store.service.ts:478-573 | ready means an owned client nobody is closing, and at most one recovery is in flight |
| StateStoreRecovery.NoClientLost | src/infrastructure/realtime/realtime-state-store.service.ts:498-573 | every client ever made is owned, a candidate under way or being closed |
| StateStoreRecovery.DestroyingIsAbsorbing | src/infrastructure/realtime/realtime-state-store.service.ts:705-723 | destruction lasts and makes no further client |
| StateStoreRecovery.DestroyedForGood | src/infrastructure/realtime/realtime-state-store.service.ts:1024-1034 | after destruction has let go, no client is owned again and every one is being closed |
| StateStoreRecovery.DestroyEnds | src/infrastructure/realtime/realtime-state-store.service.ts:459-466 | from the step that destroys it on, the store is being destroyed and makes no client |
| StateStoreRecovery.CanBecomeReady | src/infrastructure/realtime/realtime-state-store.service.ts:478-573 | whatever has happened, a store that is not being destroyed can still become ready |
| StateStoreRecovery.RecoveryStartsIff | src/infrastructure/realtime/realtime-state-store.service.ts:478-496 | a request for readiness changes nothing exactly when the store is destroyed, ready on a ready client, or already recovering |
| StateStoreRecovery.RecoverySucceeds | src/infrastructure/realtime/realtime-state-store.service.ts:498-560 | a recovery whose awaits all succeed ends ready on a new client, with the old one being closed |
| StateStoreRecovery.RecoveryShown | src/infrastructure/realtime/realtime-state-store.service.ts:485-541 | on the way the store shows that it is recovering and then reconciling |
| StateStoreRecovery.RecoveryFails | src/infrastructure/realtime/realtime-state-store.service.ts:561-573 | one that fails at any await ends without a client, both being closed, in fallback if allowed |
| StateStoreRecovery.Unconfigured | src/infrastructure/realtime/realtime-state-store.service.ts:498-515 | without configuration no client is made and the store falls back at once |
| StateStoreRecovery.RecoversAfterFailure | src/infrastructure/realtime/realtime-state-store.service.ts:705-724 | a command failing on the owned client lets go of it and the next request recovers onto another; on any other client nothing else changes |
| StateStoreRecovery.OnlyThese | src/infrastructure/realtime/realtime-state-store.service.ts:459-573 | which steps change the life and the client of the store, and that a fallback changes nothing but its life |
| StateReconcile.ReconcilePresence | src/infrastructure/realtime/realtime-state-store.service.ts:602-622 | the nested loops make the specified sequence of script calls |
| StateReconcile.ReconciledPresence | src/infrastructure/realtime/realtime-state-store.service.ts:602-622 | with no other command in between, every local socket is in Redis beside the remote ones, the user key at the latest local timestamp |
| ReconcileInterleaved.ReconciledAmidOthers | src/infrastructure/realtime/realtime-state-store.service.ts:605-621 | whatever other processes send between the awaited calls, every local socket ends in Redis and the user key holds the timestamp written to it last |
| ReconcileInterleaved.ReconciledLatest | src/infrastructure/realtime/realtime-state-store.service.ts:605-621 | if meanwhile no other process brings the user online or refreshes it, its key ends at the latest local timestamp |
| StateReconcile.UntouchedUser | src/infrastructure/realtime/realtime-state-store.service.ts:602-622 | users without local sockets keep theirs: reconciling only adds |
| StateReconcile.ReconciledTyping | src/infrastructure/realtime/realtime-state-store.service.ts:623-652 | every active entry is listed and lasts at least as long as it had left, and its list expires no earlier than the entry itself |
| StateReconcile.OrderNeeded | src/infrastructure/realtime/realtime-state-store.service.ts:623-652 | written longest first, a list could expire before an entry in it |
| GatewayAdapter.RunInvariant | src/infrastructure/realtime/realtime.gateway.ts:350-553 | every interleaving of recoveries, pings and handshakes keeps the invariant |
| GatewayAdapter.ReadyAndSingle | src/infrastructure/realtime/realtime.gateway.ts:350-381 | a ready adapter has both clients, and at most one recovery is in flight |
| GatewayAdapter.DestroyingIsAbsorbing | src/infrastructure/realtime/realtime.gateway.ts:502-553 | destruction lasts, whatever was in flight |
| GatewayAdapter.CleanHistory | src/infrastructure/realtime/realtime.gateway.ts:155-178 | the record kept of a handshake is what happened at every step since its admission |
| GatewayAdapter.NoAba | src/infrastructure/realtime/realtime.gateway.ts:155-178 | a handshake that passes its check saw the same ready pair and generation at every step in between |
| GatewayAdapter.PassesIff | src/infrastructure/realtime/realtime.gateway.ts:168-178 | a handshake passes exactly when the adapter was ready ever since its admission and no drain has begun |
| GatewayAdapter.DrainEnds | src/infrastructure/realtime/realtime.gateway.ts:155-178 | from a drain on no handshake is admitted and none passes |
| GatewayAdapter.DestroyEnds | src/infrastructure/realtime/realtime.gateway.ts:226-245 | from its destruction on the gateway stays so and admits nothing |
| GatewayAdapter.CanBecomeReady | src/infrastructure/realtime/realtime.gateway.ts:350-381 | whatever has happened, a gateway neither draining nor destroyed can still get a ready adapter with both clients |
| GatewayAdapter.RecoveryStartsIff | src/infrastructure/realtime/realtime.gateway.ts:350-367 | a request for readiness changes nothing exactly when the gateway is destroyed, ready on ready clients, or already recovering |
| GatewayAdapter.RecoverySucceeds | src/infrastructure/realtime/realtime.gateway.ts:350-535 | a recovery whose awaits all succeed installs two new clients under a new generation |
| GatewayAdapter.RecoveryFails | src/infrastructure/realtime/realtime.gateway.ts:536-553 | one that fails ends without an adapter, or with the one it found when the sockets cannot be disconnected, and its end leaves the gateway unavailable |
| GatewayAdapter.Unconfigured | src/infrastructure/realtime/realtime.gateway.ts:368-381 | without configuration no client is made and the gateway ends unavailable |
| GatewayAdapter.OvertakenRecovery | src/infrastructure/realtime/realtime.gateway.ts:505-531 | a recovery overtaken by destruction abandons its clients or closes both |
| GatewayAdapter.NothingInstalled | src/infrastructure/realtime/realtime.gateway.ts:505-515 | while draining or being destroyed no step installs a client |
| GatewayAdapter.DestroyedForGood | src/infrastructure/realtime/realtime.gateway.ts:502-553 | once its clients are destroyed the gateway never has one again |
| GatewayAdapter.FailedPing | src/infrastructure/realtime/realtime.gateway.ts:124-144 | a ping failing on the pair in use lets go of it and starts a recovery; an older pair's ping keeps the pair |
| GatewayAdapter.PingLeavesNoTrace | src/infrastructure/realtime/realtime.gateway.ts:131-137 | a readiness check that succeeds leaves the gateway as it was |
| GatewayAdapter.MarkedWhole | src/infrastructure/realtime/realtime.gateway.ts:146-148 | an adapter marked unavailable while ready is let go of whole |
| Lifecycle.ApplicationLifecycle.BeginDraining | src/bootstrap/application-lifecycle.state.ts:19-23 | true exactly for the first call; nothing else changes |
| Lifecycle.ApplicationLifecycle.TryAdmit | src/bootstrap/application-lifecycle.state.ts:25-30 | a fresh unreleased lease exactly when not draining |
| Lifecycle.ApplicationLifecycle.Release | src/bootstrap/application-lifecycle.state.ts:32-40 | the first release of a lease takes it out, and at zero resolves every waiter |
| Lifecycle.ApplicationLifecycle.WaitForIdle | src/bootstrap/application-lifecycle.state.ts:48-54 | resolved at once exactly at zero work, otherwise it joins the waiters |
| Lifecycle.RunKeepsInvariant | src/bootstrap/application-lifecycle.state.ts:10-54 | in every run the counter is the number of unreleased leases and somebody waits only while there is work |
| Lifecycle.DrainingOnlyFalls | src/bootstrap/application-lifecycle.state.ts:25-54 | while draining work never rises, and a wait begun then ends only at zero, for good |
| Lifecycle.DoubleReleaseHarmless | src/bootstrap/application-lifecycle.state.ts:32-34 | releasing a lease again, whatever happened since, changes nothing |
| Lifecycle.IdleIsFinalIffDraining | src/bootstrap/application-lifecycle.state.ts:19-54 | an idle moment is final in every run exactly when draining has begun |
| GracefulShutdown.RunKeepsInvariant | src/bootstrap/graceful-shutdown.ts:101-195 | every interleaving of signals, work, outcomes and the timer keeps the invariant |
| GracefulShutdown.RunKeeps | src/bootstrap/graceful-shutdown.ts:101-195 | work never rises after the first signal, and the winner of the race, completion and closing are final |
| GracefulShutdown.DisconnectOnlyWhenIdle | src/bootstrap/graceful-shutdown.ts:172-177 | sockets are disconnected and the application closed only with no work left, which then holds forever |
| GracefulShutdown.CloseAfterIntake | src/bootstrap/graceful-shutdown.ts:178-194 | closing begins only after every intake operation finished well |
| GracefulShutdown.CloseAfterSettled | src/bootstrap/graceful-shutdown.ts:167-194 | closing follows, for each intake operation the application has, a step in which that very operation ended well |
| GracefulShutdown.HandlersIff | src/bootstrap/graceful-shutdown.ts:79-116 | the handlers stand exactly when they were installed and neither a forced exit nor the end of the shutdown has come since |
| GracefulShutdown.ExitZeroIffClosedInTime | src/bootstrap/graceful-shutdown.ts:132-164 | exit code 0 is set exactly when closing finished before the timer fired; otherwise exit is called with 1 |
| GracefulShutdown.ExitCalls | src/bootstrap/graceful-shutdown.ts:101-116 | exit is called once for every further signal before completion, and once more on failure or timeout |
| GracefulShutdown.CanStillSucceed | src/bootstrap/graceful-shutdown.ts:167-195 | while nothing failed and the timer has not fired, some run still ends with exit code 0 |
| JsonInspection.Inspector.Visit | src/common/rich-content/rich-content.validation.ts:71-159 | the counters end at what the value weighs, and the visit passes exactly when every limit holds in total |
| JsonInspection.Inspector.VisitContainer | src/common/rich-content/rich-content.validation.ts:91-157 | the same for arrays and objects, item by item |
| JsonInspection.InspectJson | src/common/rich-content/rich-content.validation.ts:58-161 | a whole inspection accepts exactly the data within every limit |
| JsonInspection.BytesAreText | src/common/rich-content/rich-content.validation.ts:62-70 | the meter counts exactly the UTF-8 bytes of the compact text, including escapes and surrogates |
| JsonInspection.AcceptedIff | src/common/rich-content/rich-content.validation.ts:58-161 | the inspection passes exactly when no depth, width, number, text or key breaks its limit, there are at most 1024 containers, and the compact text has at most 65536 bytes |
| Utf8.EncodedLength | src/common/rich-content/rich-content.validation.ts:62-70 | the byte count is the length of the UTF-8 form of the text |
| Utf8.DecodeEncoded | src/common/rich-content/rich-content.validation.ts:62-70 | text without lone surrogates is read back from that form |
| Utf8.CompactTextDecodes | src/common/rich-content/rich-content.validation.ts:62-70 | compact text has no lone surrogate, so it is read back from its UTF-8 form |
| Utf8.EscapeTable | src/common/rich-content/rich-content.validation.ts:66-70 | which units the compact text writes as themselves, with a letter or in hexadecimal |
| JsonDepth.CheckDepth | src/common/rich-content/rich-content.validation.ts:561-573 | the loop over three variables computes the specified scan |
| JsonDepth.ScanQuote | src/common/rich-content/rich-content.validation.ts:564-569 | quoted text, whatever it holds, is no structure |
| JsonDepth.ScanValue | src/common/rich-content/rich-content.validation.ts:561-573 | compact text is passed exactly up to the nesting limit, and the scanner ends as it began |
| JsonDepth.AcceptedTextScans | src/common/rich-content/rich-content.validation.ts:561-573 | the text of inspected data passes, ending outside every bracket and string |
| JsonReading.ReadBack | src/common/rich-content/rich-content.validation.ts:548-550 | compact text reads back as the value it was written from, whatever follows it |
| JsonReading.TextDeterminesValue | src/common/rich-content/rich-content.validation.ts:548-550 | two values with the same compact text are equal |
| RichSchema.SchemaDistinct | src/common/rich-content/rich-content.validation.ts:267-545 | no node shape writes a key twice |
| RichSchema.SchemaFixesTag | src/common/rich-content/rich-content.validation.ts:284-324 | the shape chosen by a tag writes that tag again |
| RichContent.NormalAgain | src/common/rich-content/rich-content.validation.ts:248-546 | every normalized part normalizes to itself at the same complexity |
| RichContent.FindWritten | src/common/rich-content/rich-content.validation.ts:163-176 | a field is written exactly when the shape has it and the data gave it |
| RichContent.SameShape | src/common/rich-content/rich-content.validation.ts:387-407 | a written node chooses the same shape again, with or without products |
| RichContent.TallyReordered | src/common/rich-content/rich-content.validation.ts:248-546 | writing members in schema order changes no total |
| RichContent.NormalLoad | src/common/rich-content/rich-content.validation.ts:248-546 | normalizing changes neither the compact byte count nor any limit the data meets |
| RichForm.PlaceIff | src/common/rich-content/rich-content.validation.ts:225-546 | at every place of a document the normalizer's shape is the one written out in literal keys: the keys each type or kind requires and permits, and what each holds, among them safe display text, formula tokens, elements and UUIDs |
| RichCount.NodeCount | src/common/rich-content/rich-content.validation.ts:261-263 | the complexity counted over the whole value from literal keys and types is what the normalizer counts |
| RichCount.AcceptsIff | src/common/rich-content/rich-content.validation.ts:247-546 | exactly which data is accepted, limit by limit and key by key |
| RichCount.NormalFormAccepted | src/common/rich-content/rich-content.validation.ts:247-546 | the normal form holds no key twice and is again such a document, within the same limits |
| RichRewrite.NormalizeRewrites | src/common/rich-content/rich-content.validation.ts:247-546 | normalizing changes the order of members and the letter case of asset ids, and nothing else |
| RichContentJson.NormalizeIdempotent | src/common/rich-content/rich-content.validation.ts:247-546 | the normal form of accepted data is accepted and is its own normal form |
| RichContentJson.SerializedIsBounded | src/common/rich-content/rich-content.validation.ts:554-573 | the text of accepted data passes the length, byte and depth checks |
| RichContentJson.ParseRichContentJson | src/common/rich-content/rich-content.validation.ts:554-581 | the checks in order, then the native parse, then normalization |
| RichContentJson.ParseSerialized | src/common/rich-content/rich-content.validation.ts:548-581 | parsing the serialization of accepted input gives its normal form |
| RichContentJson.ParsedIsNormal | src/common/rich-content/rich-content.validation.ts:554-581 | whatever was parsed is a normal form whose text parses to it again |
| RichContentJson.ReaderInverts | src/common/rich-content/rich-content.validation.ts:574-579 | a parser that inverts serialization exists |
| PrivateMediaRange.MatchIff | src/infrastructure/storage/private-media-range.ts:11 | the matcher finds exactly the headers of the pattern, with unique digit groups |
| PrivateMediaRange.TrimPadded | src/infrastructure/storage/private-media-range.ts:11 | surrounding white space is dropped and nothing else |
| PrivateMediaRange.SpaceIff | src/infrastructure/storage/private-media-range.ts:11 | the white space dropped, by code point |
| PrivateMediaRange.RangeIsSelection | src/infrastructure/storage/private-media-range.ts:17-27 | a range given is exactly the positions asked for, cut to the object, as in section 14.1.2 of RFC 9110 |
| PrivateMediaRange.ResolveIff | src/infrastructure/storage/private-media-range.ts:7-28 | a range is given exactly for a well-formed header of safe integers that asks for some existing byte |
| PrivateMediaContent.ValidateBytes | src/infrastructure/storage/private-media-content.service.ts:250-278 | the generator loop sends the specified chunks and ends as specified |
| PrivateMediaContent.SentIsPrefix | src/infrastructure/storage/private-media-content.service.ts:258-271 | what is sent is a prefix of what the provider gave |
| PrivateMediaContent.FullOnlyAfterEnd | src/infrastructure/storage/private-media-content.service.ts:261-268 | the expected count is reached only with the chunk sent after the end was seen |
| PrivateMediaContent.CompletesIff | src/infrastructure/storage/private-media-content.service.ts:250-278 | normal completion exactly for chunks that add up to the expected count with nothing after the one that reaches it |
| PrivateMediaContent.SentAll | src/infrastructure/storage/private-media-content.service.ts:272-275 | a completed stream sent everything, a failed one fell short or sent nothing |
| PrivateMediaContent.TrailingEmptyChunkFails | src/infrastructure/storage/private-media-content.service.ts:263-266 | an exact byte count followed by an empty chunk fails |
| PrivateMediaContent.Open | src/infrastructure/storage/private-media-content.service.ts:103-245 | the awaited operations in order, with their failures and interruptions, give the specified outcome |
| PrivateMediaContent.OpensIff | src/infrastructure/storage/private-media-content.service.ts:103-245 | a response is handed out exactly for a located, showable file of the recorded size whose first bytes fit, unchanged meanwhile, still authorized, with the client still there |
| PrivateMediaContent.ErrorOutcomes | src/infrastructure/storage/private-media-content.service.ts:103-245 | why no response is handed out, in the order in which the call meets the reasons, and which error each becomes |
| PrivateMediaContent.EtagIff | src/infrastructure/storage/private-media-content.service.ts:140-158 | exactly an object whose provider tells a version has an entity tag, and If-Range never matches without one |
| PrivateMediaContent.SecondLookIff | src/infrastructure/storage/private-media-content.service.ts:211-224 | the object is looked at again only when an entity tag alone tells its version, and must then be the same |
| PrivateMediaContent.PlanMeaning | src/infrastructure/storage/private-media-content.service.ts:160-171 | 416 exactly for an applicable range that cannot be given; otherwise what is promised lies within the object |
| PrivateMediaContent.WholeObject | src/infrastructure/storage/private-media-content.service.ts:155-171 | without a range that applies the plan is status 200 and the whole stored size, and a delivered response is all stored bytes |
| PrivateMediaContent.RangedPlan | src/infrastructure/storage/private-media-content.service.ts:155-171 | with one, it is 206 and the range asked for, or 416 when that cannot be given |
| PrivateMediaContent.DeliversIff | src/infrastructure/storage/private-media-content.service.ts:202-224 | a response is delivered whole exactly when the provider gives the promised count and ends at once |
| PrivateMediaContent.NonEmptyChunksEndAtOnce | src/infrastructure/storage/private-media-content.service.ts:250-278 | a provider without empty chunks always ends at once |
| PrivateMediaContent.DeliveredBody | src/infrastructure/storage/private-media-content.service.ts:202-232 | a delivered response sends all the provider gave, of the promised size |
| PrivateMediaContent.PartialContent | src/infrastructure/storage/private-media-content.service.ts:160-232 | a delivered 206 holds exactly the bytes the header selects, each at its place |
| QuestionLayout.GroupQuestions | src/common/question-groups/question-group.ts:89-96 | the loop gives every known group its members in order, and refuses exactly an unknown group |
| QuestionLayout.MixedQuestionLayout | src/common/question-groups/question-group.ts:81-129 | the map filled in a loop, then sorted, is the specified layout |
| QuestionLayout.TopLevelArranged | src/common/question-groups/question-group.ts:106-128 | display items show all ungrouped questions and all groups, sorted by order and id |
| QuestionLayout.ChildrenArranged | src/common/question-groups/question-group.ts:97-105 | the children of a group are exactly its members, sorted by order and id |
| QuestionLayout.TopLevelOrdered | src/common/question-groups/question-group.ts:85-123 | an item shown earlier has the lesser layout order, for a question its sort order when it has none, or the same order and no greater id |
| QuestionLayout.ChildrenOrdered | src/common/question-groups/question-group.ts:85-105 | the same of the children of a group |
| QuestionLayout.EveryQuestionOnce | src/common/question-groups/question-group.ts:81-129 | every question is shown exactly once |
| QuestionLayout.InputOrderIrrelevant | src/common/question-groups/question-group.ts:81-129 | with distinct question ids and distinct group ids neither the layout nor the refusal depends on the order of the inputs |
| QuestionLayout.StableTies | src/common/question-groups/question-group.ts:106-123 | the stable sort puts a question before a group of the same order and id |
| StableSort.Sorts | src/common/question-groups/question-group.ts:85-88 | the stable sort orders exactly the elements given |
| StableSort.SortedUnique | src/common/question-groups/question-group.ts:85-88 | without ties there is one sorted arrangement |

## Left out

- StateReconcile.ReconciledTyping: other processes write no typing entry between these writes; one with less time left in the same conversation would shorten the list's expiry.
- JobReplacement, StateStoreRecovery, GatewayAdapter and GracefulShutdown are steps on values, not objects with methods: their results are about interleavings at awaits, which a single object's methods cannot show. Aliasing of clients and promises is therefore by identifier.
- Reparse.TextRoundTrip: when the printed text with its blanks is longer than 512 characters the length check refuses it; the token-level result has no such condition.
- RichContent.NormalAgain: which reason a refusal carries is not modelled, only whether data is refused.
- PrivateMediaContent.Open: MIME patterns are one flag, the digest of the entity tag a parameter, and destroying streams is left out.
- Strict-data reflection of the question-evaluation inputs (own keys, prototypes, version fields), draft phases, sorting of variables and unit codes: the model starts from decoded data.
- Property descriptors, prototypes, symbols and cycles of in-process objects in the JSON inspection, for the same reason; negative zero is the integer zero.
- The patterns for unsafe display text, formula tokens and the table of chemical elements: they are parameters of the normalizer.
- The native JSON parser: a parameter, with the assumption listed above.
- The job-id and still-required checks before the job protocol, and the readiness wait.
- Repeat-job registration and restoration, queue readiness probes, worker and connection closing.
- Redis key expiry in the presence runs; reading back typing lists, which removes stale ids in the same way; the local typing sweep and the fallback switch that guards the typing half of the reconciliation; the serialized mutation queue as such (each mutation is one step).
- Timers and wall-clock values: a timeout is a step that may happen while its timer is armed.
- Registration of signal listeners beyond the installed flag, log events and elapsed times.
- Question-group references, texts and stimuli, ordering and choice questions, response configuration, storage adapters, encryption, school scoping: wiring or short checks with easy members.
